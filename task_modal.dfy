/** The task dialog (`TaskModal`): the texts it edits, the update requests its
    handlers send, the sub-task drag-end payload, the draggable sub-task list
    and the form it opens for a new sub-task. Its section, due-date and
    priority handlers send the same requests as the task row's (module
    TaskListRow). */
module TaskModal {
  import opened Common
  import opened Seqs
  import TaskRouter
  import TaskListRow
  import CollectionView
  import AddTaskCard

  /** `isEditingTextOrDescriptionTarget`: `''`, `'text'` or `'description'`. */
  datatype EditTarget = NotEditing | EditingText | EditingDescription

  /** `task.description ?? ''`. */
  function DescriptionText(t: Task): (s: string)
    ensures t.description.Some? ==> s == t.description.value
    ensures t.description.None? ==> s == []
  {
    if t.description.Some? then t.description.value else []
  }

  /** `handleComplete`: the copy marked complete, whatever it was. */
  function CompleteRequest(t: Task, withDescription: bool): (u: TaskRouter.UpdateInput)
    ensures u.complete
  {
    TaskListRow.AsUpdate(t.(complete := true), withDescription)
  }

  /** Completing never re-opens a task, and completing a current copy changes
      `complete` and nothing else. */
  lemma CompleteOnlyCompletes(t: Task, withDescription: bool)
    ensures TaskRouter.Updated(t, CompleteRequest(t, withDescription)) == t.(complete := true)
  {
    TaskListRow.CopyOverwrites(t, t.(complete := true), withDescription);
  }

  /** Completing twice leaves what completing once does. */
  lemma CompleteIdempotent(t: Task, withDescription: bool)
    ensures var once := TaskRouter.Updated(t, CompleteRequest(t, withDescription));
      TaskRouter.Updated(once, CompleteRequest(once, withDescription)) == once
  {
    CompleteOnlyCompletes(t, withDescription);
    CompleteOnlyCompletes(t.(complete := true), withDescription);
  }

  /** `handleUpdateTextAndDescription`'s request: the copy with the edited
      texts. The description is sent as a text even when the task had none. */
  function TextAndDescriptionRequest(t: Task, text: string, description: string): (u: TaskRouter.UpdateInput)
    ensures u.text == text && u.description == Given(description)
  {
    TaskListRow.AsUpdate(t.(text := text, description := Some(description)), true)
  }

  /** Saving replaces the text and the description of a current copy and nothing else. */
  lemma SaveReplacesBoth(t: Task, text: string, description: string)
    ensures TaskRouter.Updated(t, TextAndDescriptionRequest(t, text, description)) ==
      t.(text := text, description := Some(description))
  {
    TaskListRow.CopyOverwrites(t, t.(text := text, description := Some(description)), true);
  }

  /** Saving without editing writes the task back unchanged, except that a
      missing description becomes the empty text. */
  lemma UneditedSaveFillsDescription(t: Task)
    ensures TaskRouter.Updated(t, TextAndDescriptionRequest(t, t.text, DescriptionText(t))) ==
      t.(description := Some(DescriptionText(t)))
    ensures t.description.Some? ==> TaskRouter.Updated(t, TextAndDescriptionRequest(t, t.text, DescriptionText(t))) == t
  {
    SaveReplacesBoth(t, t.text, DescriptionText(t));
  }

  /** Sub-task drag-end: the `i`-th child at position `i`, all in the parent's
      section (once dragged, children count from 0, while `create` numbers them from 1). */
  function SubTaskDragEnd(parent: Task, ids: seq<Id>): (r: seq<TaskRouter.TaskMove>)
    ensures |r| == |ids|
    ensures forall i | 0 <= i < |r| :: r[i] == TaskRouter.TaskMove(ids[i], i, parent.sectionId)
  {
    CollectionView.DropMoves(ids, parent.sectionId)
  }

  /** A request from the form a sub-task is added with lands under the parent:
      in the parent's section, after the parent's other children, not complete. */
  lemma SubTaskLandsUnderParent(sections: map<Id, Section>, tasks: map<Id, Task>, parent: Task,
                                text: string, description: string, dueDate: Option<Timestamp>,
                                priority: Option<Priority>, id: Id)
    requires parent.id in tasks && parent.id != [] && AddTaskCard.Trim(text) != [] && parent.sectionId != []
    ensures var p := AddTaskCard.Payload(true, text, description, dueDate, priority, Some(parent.sectionId), Given(parent.id));
      && p.Some?
      && var t := TaskRouter.NewTask(sections, tasks, p.value, id);
      && t.parentId == Some(parent.id) && t.sectionId == parent.sectionId && !t.complete
      && t.position == |TaskRouter.ChildrenOf(tasks, parent.id)| + 1
  {
  }

  class TaskModal {
    var target: EditTarget
    var text: string
    var description: string
    var isAddingSubTask: bool
    var isCollapsed: bool
    var subTasks: seq<Task>

    constructor ()
      ensures target == NotEditing && text == [] && description == []
      ensures !isAddingSubTask && !isCollapsed && subTasks == []
    {
      target, text, description := NotEditing, [], [];
      isAddingSubTask, isCollapsed, subTasks := false, false, [];
    }

    /** Whenever the task changes, the edited texts restart from it. */
    method Sync(task: Task)
      modifies this
      ensures text == task.text && description == DescriptionText(task)
      ensures target == old(target) && isAddingSubTask == old(isAddingSubTask)
      ensures isCollapsed == old(isCollapsed) && subTasks == old(subTasks)
    {
      text := task.text;
      description := DescriptionText(task);
    }

    /** Clicking the text or the description starts editing it; "Cancel" stops
        editing and keeps the edited texts. */
    method SetTarget(t: EditTarget)
      modifies this
      ensures target == t && text == old(text) && description == old(description)
      ensures isAddingSubTask == old(isAddingSubTask) && isCollapsed == old(isCollapsed) && subTasks == old(subTasks)
    {
      target := t;
    }

    method SetText(s: string)
      modifies this
      ensures text == s && target == old(target) && description == old(description)
      ensures isAddingSubTask == old(isAddingSubTask) && isCollapsed == old(isCollapsed) && subTasks == old(subTasks)
    {
      text := s;
    }

    method SetDescription(s: string)
      modifies this
      ensures description == s && target == old(target) && text == old(text)
      ensures isAddingSubTask == old(isAddingSubTask) && isCollapsed == old(isCollapsed) && subTasks == old(subTasks)
    {
      description := s;
    }

    /** "Save": the request with the edited texts; editing stops. */
    method Save(task: Task) returns (u: TaskRouter.UpdateInput)
      modifies this
      ensures u == TextAndDescriptionRequest(task, old(text), old(description))
      ensures target == NotEditing && text == old(text) && description == old(description)
      ensures isAddingSubTask == old(isAddingSubTask) && isCollapsed == old(isCollapsed) && subTasks == old(subTasks)
    {
      u := TextAndDescriptionRequest(task, text, description);
      target := NotEditing;
    }

    /** The draggable sub-task list follows the task's children when it has them. */
    method ResetSubTasks(children: Option<seq<Task>>)
      modifies this
      ensures subTasks == if children.Some? then children.value else old(subTasks)
      ensures target == old(target) && text == old(text) && description == old(description)
      ensures isAddingSubTask == old(isAddingSubTask) && isCollapsed == old(isCollapsed)
    {
      if children.Some? {
        subTasks := children.value;
      }
    }

    method ToggleCollapsed()
      modifies this
      ensures isCollapsed == !old(isCollapsed)
      ensures target == old(target) && text == old(text) && description == old(description)
      ensures isAddingSubTask == old(isAddingSubTask) && subTasks == old(subTasks)
    {
      isCollapsed := !isCollapsed;
    }

    /** "Add sub-task" opens the form for a child of `task`: in the task's
        section, under the task, with no default due date. */
    method OpenSubTaskCard(task: Task) returns (card: AddTaskCard.AddTaskCard)
      modifies this
      ensures fresh(card) && card.Valid()
      ensures card.sectionId == Some(task.sectionId) && card.parentTaskId == Given(task.id)
      ensures card.dueDate == None && card.priority == None && card.text == [] && card.description == []
      ensures isAddingSubTask == !old(isAddingSubTask)
      ensures target == old(target) && text == old(text) && description == old(description)
      ensures isCollapsed == old(isCollapsed) && subTasks == old(subTasks)
    {
      isAddingSubTask := !isAddingSubTask;
      card := new AddTaskCard.AddTaskCard(task.sectionId, Given(task.id), None);
    }

    /** The form's "Cancel" closes it. */
    method CloseSubTaskCard()
      modifies this
      ensures isAddingSubTask == !old(isAddingSubTask)
      ensures target == old(target) && text == old(text) && description == old(description)
      ensures isCollapsed == old(isCollapsed) && subTasks == old(subTasks)
    {
      isAddingSubTask := !isAddingSubTask;
    }
  }
}
