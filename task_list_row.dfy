/** The task row (`TaskRow`): the single-field update requests it sends, the
    sub-task progress it shows, and when it offers the section picker. */
module TaskListRow {
  import opened Common
  import opened Seqs
  import TaskRouter

  /** The request `updateTask({...task, ...})` sends, built from the client's
      copy `t` of the task. The copy carries `description` only when
      `withDescription` holds: the children a collection read returns leave it
      out, and a left-out field is sent as left out. */
  function AsUpdate(t: Task, withDescription: bool): TaskRouter.UpdateInput
  {
    TaskRouter.UpdateInput(t.id, t.text, if withDescription then AsNullish(t.description) else Absent,
      t.complete, t.position, AsNullish(t.dueDate), AsNullish(t.priority), t.sectionId)
  }

  /** What the store holds once the copy `t` reaches it: the copy, except for a
      description the copy does not carry. */
  function Landed(stored: Task, t: Task, withDescription: bool): Task
  {
    if withDescription then t else t.(description := stored.description)
  }

  /** The store keeps exactly the client's copy: every field the copy carries
      replaces the stored one, including fields changed elsewhere since the copy
      was read; `id` and `parentId`, which update does not write, agree already. */
  lemma CopyOverwrites(stored: Task, t: Task, withDescription: bool)
    requires stored.id == t.id && stored.parentId == t.parentId
    ensures TaskRouter.Updated(stored, AsUpdate(t, withDescription)) == Landed(stored, t, withDescription)
  {
    OverwriteWithOwnValue(t.dueDate, stored.dueDate);
    OverwriteWithOwnValue(t.priority, stored.priority);
    OverwriteWithOwnValue(t.description, stored.description);
  }

  /** The copy passes validation exactly when its id, text and section are non-empty. */
  lemma CopyIsValid(t: Task, withDescription: bool)
    ensures TaskRouter.UpdateInputValid(AsUpdate(t, withDescription)) <==> t.id != [] && t.text != [] && t.sectionId != []
  {
  }

  /** `handleToggleComplete`: the copy with `complete` negated. */
  function ToggleComplete(t: Task, withDescription: bool): (u: TaskRouter.UpdateInput)
    ensures u.complete == !t.complete
  {
    AsUpdate(t.(complete := !t.complete), withDescription)
  }

  /** `handleTaskDueDateChange`. */
  function ChangeDueDate(t: Task, withDescription: bool, dueDate: Option<Timestamp>): (u: TaskRouter.UpdateInput)
    ensures Stored(u.dueDate) == dueDate
  {
    AsUpdate(t.(dueDate := dueDate), withDescription)
  }

  /** `handleSectionChange`. */
  function ChangeSection(t: Task, withDescription: bool, sectionId: Id): (u: TaskRouter.UpdateInput)
    ensures u.sectionId == sectionId
  {
    AsUpdate(t.(sectionId := sectionId), withDescription)
  }

  /** The priority picker's `setValue`. */
  function ChangePriority(t: Task, withDescription: bool, priority: Option<Priority>): (u: TaskRouter.UpdateInput)
    ensures Stored(u.priority) == priority
  {
    AsUpdate(t.(priority := priority), withDescription)
  }

  /** Toggling a row whose copy is current negates `complete` and leaves every other field. */
  lemma ToggleChangesOnlyComplete(t: Task)
    ensures TaskRouter.Updated(t, ToggleComplete(t, true)) == t.(complete := !t.complete)
    ensures TaskRouter.Updated(t, ToggleComplete(t, false)) == t.(complete := !t.complete)
  {
    CopyOverwrites(t, t.(complete := !t.complete), true);
    CopyOverwrites(t, t.(complete := !t.complete), false);
  }

  /** Toggling twice, each time from the row as re-read, restores the task. */
  lemma ToggleTwiceRestores(t: Task, withDescription: bool)
    ensures var once := TaskRouter.Updated(t, ToggleComplete(t, withDescription));
      TaskRouter.Updated(once, ToggleComplete(once, withDescription)) == t
  {
    ToggleChangesOnlyComplete(t);
    ToggleChangesOnlyComplete(t.(complete := !t.complete));
  }

  /** Each picker of a current row replaces its one field and nothing else. */
  lemma PickersChangeOneField(t: Task, withDescription: bool, dueDate: Option<Timestamp>, sectionId: Id, priority: Option<Priority>)
    ensures TaskRouter.Updated(t, ChangeDueDate(t, withDescription, dueDate)) == t.(dueDate := dueDate)
    ensures TaskRouter.Updated(t, ChangeSection(t, withDescription, sectionId)) == t.(sectionId := sectionId)
    ensures TaskRouter.Updated(t, ChangePriority(t, withDescription, priority)) == t.(priority := priority)
  {
    CopyOverwrites(t, t.(dueDate := dueDate), withDescription);
    CopyOverwrites(t, t.(sectionId := sectionId), withDescription);
    CopyOverwrites(t, t.(priority := priority), withDescription);
  }

  function IsComplete(t: Task): bool { t.complete }

  /** The sub-task progress `done/total`, shown only when the task has a child. */
  function Progress(children: Option<seq<Task>>): (r: Option<(nat, nat)>)
    ensures r.None? <==> children.None? || children.value == []
    ensures r.Some? ==> r.value.1 == |children.value| && r.value.0 <= r.value.1
    ensures r.Some? ==> (r.value.0 == r.value.1 <==> forall i | 0 <= i < |children.value| :: children.value[i].complete)
    ensures r.Some? ==> (r.value.0 == 0 <==> forall i | 0 <= i < |children.value| :: !children.value[i].complete)
  {
    if children.None? || children.value == [] then None
    else
      var c := children.value;
      CountAll(c, IsComplete);
      CountNone(c, IsComplete);
      Some((Count(c, IsComplete), |c|))
  }

  /** The section picker is offered for tasks without a parent (`parentId === null`). */
  predicate ShowSectionPicker(t: Task)
  {
    t.parentId.None?
  }

  /** A created task offers the picker exactly when it was not created under a parent. */
  lemma PickerForTopLevelOnly(sections: map<Id, Section>, tasks: map<Id, Task>, input: TaskRouter.CreateInput, id: Id)
    ensures ShowSectionPicker(TaskRouter.NewTask(sections, tasks, input, id)) <==> !input.parentTaskId.Given?
  {
  }
}
