/**
 * The editable task list: an ordered list of tasks, a text box for a new
 * task, and a per-task edit session (`editing` flag and `draft` text).
 */
module TaskList {
  import opened Wrappers
  import opened JsStrings
  import opened JsArray

  /** One task. `editing` unset and `editing == false` are both falsy in the
      source and are the same value here; `draft` is `None` when the property
      has been deleted or never set. */
  datatype Task = Task(description: string, editing: bool, draft: Option<string>)

  /** A description that was committed: trimmed and not blank. */
  predicate Committed(description: string) {
    description != [] && IsTrimmed(description)
  }

  /** A draft exists exactly while the task is being edited, and the
      description is a committed one. */
  predicate WellFormed(t: Task) {
    (t.draft.Some? <==> t.editing) && Committed(t.description)
  }

  /** The task `addTask` pushes for the text `text`. */
  function NewTask(text: string): (t: Task)
    requires !IsBlank(text)
    ensures WellFormed(t) && !t.editing
    ensures t.description == Trim(text)
  {
    TrimIdempotent(text);
    Task(Trim(text), false, None)
  }

  /** `editTask`: enter (or re-enter) editing with the draft seeded from the description. */
  function BeginEdit(t: Task): (r: Task)
    ensures r.editing && r.draft == Some(t.description)
    ensures r.description == t.description
  {
    t.(editing := true, draft := Some(t.description))
  }

  /** The text box bound to `draft` while the task is being edited. */
  function TypeDraft(t: Task, text: string): (r: Task)
    requires t.editing
    ensures r.editing && r.draft == Some(text)
    ensures r.description == t.description
  {
    t.(draft := Some(text))
  }

  /** `saveTask`: the trimmed draft (`""` when absent) replaces the description
      unless it is blank; the edit session ends either way. */
  function Save(t: Task): (r: Task)
    ensures !r.editing && r.draft.None?
    ensures var d := Trim(t.draft.GetOr(""));
      r.description == if d == [] then t.description else d
  {
    var d := Trim(t.draft.GetOr(""));
    Task(if d == [] then t.description else d, false, None)
  }

  /** `cancelEdit`: the edit session ends and the description is never touched. */
  function Cancel(t: Task): (r: Task)
    ensures !r.editing && r.draft.None?
    ensures r.description == t.description
  {
    t.(editing := false, draft := None)
  }

  /** Entering an edit, typing, and leaving by cancel keep a task well formed. */
  lemma EditStepsPreserveWellFormed(t: Task, text: string)
    requires WellFormed(t)
    ensures WellFormed(BeginEdit(t))
    ensures t.editing ==> WellFormed(TypeDraft(t, text))
    ensures WellFormed(Cancel(t))
  {
  }

  /** Saving keeps a task well formed: a non-blank trimmed draft is committed. */
  lemma SavePreservesWellFormed(t: Task)
    requires WellFormed(t)
    ensures WellFormed(Save(t))
  {
    var d := Trim(t.draft.GetOr(""));
    if d != [] { TrimIdempotent(t.draft.GetOr("")); }
  }

  /** `editTask` then `cancelEdit` restores the task as viewed, whatever was typed. */
  lemma EditThenCancel(t: Task, text: string)
    requires WellFormed(t)
    ensures Cancel(BeginEdit(t)) == t.(editing := false, draft := None)
    ensures Cancel(TypeDraft(BeginEdit(t), text)) == t.(editing := false, draft := None)
    ensures !t.editing ==> Cancel(BeginEdit(t)) == t
  {
  }

  /** Saving a blank draft discards the edit. */
  lemma SaveBlankDiscards(t: Task, text: string)
    requires IsBlank(text)
    ensures Save(TypeDraft(BeginEdit(t), text)) == Task(t.description, false, None)
  {
  }

  /** Saving a non-blank draft commits its trimmed text. */
  lemma SaveCommitsTrimmed(t: Task, text: string)
    requires !IsBlank(text)
    ensures Save(TypeDraft(BeginEdit(t), text)) == Task(Trim(text), false, None)
    ensures Committed(Save(TypeDraft(BeginEdit(t), text)).description)
  {
    TrimIdempotent(text);
  }

  /** Saving straight after `editTask` keeps a committed description as it is. */
  lemma SaveUnchangedDraft(t: Task)
    requires WellFormed(t)
    ensures Save(BeginEdit(t)) == Task(t.description, false, None)
  {
  }

  /** `editTask` re-seeds rather than toggles: a second call throws the typed draft away. */
  lemma BeginEditReseeds(t: Task, text: string)
    ensures BeginEdit(TypeDraft(BeginEdit(t), text)) == BeginEdit(t)
    ensures BeginEdit(BeginEdit(t)) == BeginEdit(t)
  {
  }

  predicate AllWellFormed(tasks: seq<Task>) {
    forall k :: 0 <= k < |tasks| ==> WellFormed(tasks[k])
  }

  /** Applying a well-formedness-preserving step to one task keeps the list well formed. */
  lemma UpdatePreserves(tasks: seq<Task>, i: nat, t: Task)
    requires AllWellFormed(tasks) && i < |tasks| && WellFormed(t)
    ensures AllWellFormed(tasks[i := t])
  {
  }

  /** Removing with `splice` keeps the list well formed. */
  lemma RemovePreserves(tasks: seq<Task>, index: int)
    requires AllWellFormed(tasks)
    ensures AllWellFormed(SpliceOne(tasks, index))
  {
    SpliceSubset(tasks, index);
    var r := SpliceOne(tasks, index);
    forall k | 0 <= k < |r| ensures WellFormed(r[k]) {
      assert r[k] in tasks;
    }
  }

  /** The component: the new-task text box and the task list. */
  class TaskListComponent {
    var newTask: string
    var tasks: seq<Task>

    ghost predicate Valid()
      reads this
    {
      AllWellFormed(tasks)
    }

    constructor ()
      ensures Valid()
      ensures newTask == "" && tasks == []
    {
      newTask := "";
      tasks := [];
    }

    /** `addTask`: a blank text box changes nothing; otherwise the trimmed
        text is appended as a new task and the box is cleared. */
    method AddTask()
      requires Valid()
      modifies this
      ensures Valid()
      ensures IsBlank(old(newTask)) ==> newTask == old(newTask) && tasks == old(tasks)
      ensures !IsBlank(old(newTask)) ==>
        newTask == "" && tasks == old(tasks) + [NewTask(old(newTask))]
    {
      var desc := Trim(newTask);
      if desc == [] {
        return;
      }
      tasks := tasks + [NewTask(newTask)];
      newTask := "";
    }

    /** `editTask(index)`. */
    method EditTask(index: int)
      requires Valid()
      requires 0 <= index < |tasks|
      modifies this
      ensures Valid()
      ensures tasks == old(tasks)[index := BeginEdit(old(tasks)[index])]
      ensures newTask == old(newTask)
    {
      EditStepsPreserveWellFormed(tasks[index], "");
      UpdatePreserves(tasks, index, BeginEdit(tasks[index]));
      tasks := tasks[index := BeginEdit(tasks[index])];
    }

    /** Typing `text` into the edit box of a task being edited (the box is
        bound to `draft`). */
    method EditDraft(index: int, text: string)
      requires Valid()
      requires 0 <= index < |tasks| && tasks[index].editing
      modifies this
      ensures Valid()
      ensures tasks == old(tasks)[index := TypeDraft(old(tasks)[index], text)]
      ensures newTask == old(newTask)
    {
      EditStepsPreserveWellFormed(tasks[index], text);
      UpdatePreserves(tasks, index, TypeDraft(tasks[index], text));
      tasks := tasks[index := TypeDraft(tasks[index], text)];
    }

    /** `saveTask(index)`. */
    method SaveTask(index: int)
      requires Valid()
      requires 0 <= index < |tasks|
      modifies this
      ensures Valid()
      ensures tasks == old(tasks)[index := Save(old(tasks)[index])]
      ensures newTask == old(newTask)
    {
      SavePreservesWellFormed(tasks[index]);
      UpdatePreserves(tasks, index, Save(tasks[index]));
      tasks := tasks[index := Save(tasks[index])];
    }

    /** `cancelEdit(index)`. */
    method CancelEdit(index: int)
      requires Valid()
      requires 0 <= index < |tasks|
      modifies this
      ensures Valid()
      ensures tasks == old(tasks)[index := Cancel(old(tasks)[index])]
      ensures newTask == old(newTask)
    {
      EditStepsPreserveWellFormed(tasks[index], "");
      UpdatePreserves(tasks, index, Cancel(tasks[index]));
      tasks := tasks[index := Cancel(tasks[index])];
    }

    /** `removeTask(index)`: `tasks.splice(index, 1)`. */
    method RemoveTask(index: int)
      requires Valid()
      modifies this
      ensures Valid()
      ensures tasks == SpliceOne(old(tasks), index)
      ensures 0 <= index < |old(tasks)| ==> tasks == old(tasks)[..index] + old(tasks)[index + 1..]
      ensures newTask == old(newTask)
    {
      RemovePreserves(tasks, index);
      tasks := SpliceOne(tasks, index);
    }
  }

  /** Adding "Buy milk" to an empty list gives one task that is not being edited. */
  method AddScenario() returns (tasks: seq<Task>)
    ensures tasks == [Task("Buy milk", false, None)]
  {
    var c := new TaskListComponent();
    c.newTask := "  Buy milk ";
    TrimPadded("  ", "Buy milk", " ");
    assert "  " + "Buy milk" + " " == "  Buy milk ";
    c.AddTask();
    tasks := c.tasks;
  }

  /** Editing "A", emptying the draft and saving leaves "A" as it was. */
  method SaveEmptyScenario() returns (before: Task, after: Task)
    ensures before == Task("A", true, Some("A"))
    ensures after == Task("A", false, None)
  {
    var c := new TaskListComponent();
    c.newTask := "A";
    TrimPadded("", "A", "");
    assert "" + "A" + "" == "A";
    c.AddTask();
    c.EditTask(0);
    before := c.tasks[0];
    c.EditDraft(0, "");
    c.SaveTask(0);
    after := c.tasks[0];
  }
}
