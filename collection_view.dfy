/** The rules of the collection page (`CollectionView` and its `Section`) that
    decide what reaches the store: the drag-end payloads, the tasks a section
    lets the user drag, which controls the page shows, the header count, the
    rename payload and the "Add section" form. */
module CollectionView {
  import opened Common
  import opened Seqs
  import opened Batch
  import opened Db
  import TaskRouter
  import opened CollectionRouter
  import SectionRouter
  import Upcoming
  import Days

  const TodayName: string := "Today"

  // -------------------------------------------------------- section drag-end

  /** One entry of the `section.reoder` payload. */
  datatype SectionOrder = SectionOrder(id: Id, position: int)

  /** Section drag-end: the sections in their dropped order, each placed at its
      index. No server procedure handles this payload. */
  function SectionDragEnd(ids: seq<Id>): (r: seq<SectionOrder>)
    ensures |r| == |ids|
    ensures forall i | 0 <= i < |r| :: r[i].id == ids[i] && r[i].position == i
  {
    seq(|ids|, i requires 0 <= i < |ids| => SectionOrder(ids[i], i))
  }

  // ----------------------------------------------------------- task drag-end

  /** The `task.reorder` payload for the tasks dropped into section `sectionId`:
      each placed at its index in the dropped order, all in that section. */
  function DropMoves(ids: seq<Id>, sectionId: Id): (r: seq<TaskRouter.TaskMove>)
    ensures |r| == |ids|
    ensures forall i | 0 <= i < |r| :: r[i].id == ids[i] && r[i].position == i && r[i].sectionId == sectionId
  {
    seq(|ids|, i requires 0 <= i < |ids| => TaskRouter.TaskMove(ids[i], i, sectionId))
  }

  /** Task drag-end: the drop container's label names the section; without a
      label nothing is sent. */
  function TaskDragEnd(container: Option<string>, ids: seq<Id>): (r: Option<seq<TaskRouter.TaskMove>>)
    ensures r.None? <==> container.None? || container.value == []
    ensures r.Some? ==> r.value == DropMoves(ids, container.value)
  {
    if container.None? || container.value == [] then None else Some(DropMoves(ids, container.value))
  }

  /** A drop of stored tasks commits, whatever section the container names:
      `task.reorder` does not look the section up. */
  lemma DropCommits(tasks: map<Id, Task>, ids: seq<Id>, sectionId: Id)
    requires forall i | 0 <= i < |ids| :: ids[i] in tasks
    ensures TaskRouter.ReorderTasks(tasks, DropMoves(ids, sectionId)).Some?
  {
    TaskRouter.ReorderSucceedsIff(tasks, DropMoves(ids, sectionId));
  }

  /** After a drop of distinct stored tasks, the `i`-th dropped task sits at
      position `i` of the drop section, every other field as before. */
  lemma DropPlaces(tasks: map<Id, Task>, ids: seq<Id>, sectionId: Id, i: int)
    requires Distinct(ids) && forall j | 0 <= j < |ids| :: ids[j] in tasks
    requires 0 <= i < |ids|
    ensures TaskRouter.ReorderTasks(tasks, DropMoves(ids, sectionId)).Some?
    ensures var after := TaskRouter.ReorderTasks(tasks, DropMoves(ids, sectionId)).value;
      ids[i] in after && after[ids[i]] == tasks[ids[i]].(position := i, sectionId := sectionId)
  {
    var moves := DropMoves(ids, sectionId);
    DropCommits(tasks, ids, sectionId);
    LastEntryOfDistinct(moves, TaskRouter.MoveId, i);
    TaskRouter.ReorderAt(tasks, moves, ids[i]);
  }

  /** A drop leaves every task it does not list as it was. */
  lemma DropKeepsOthers(tasks: map<Id, Task>, ids: seq<Id>, sectionId: Id, k: Id)
    requires forall j | 0 <= j < |ids| :: ids[j] in tasks
    requires k in tasks && k !in ids
    ensures TaskRouter.ReorderTasks(tasks, DropMoves(ids, sectionId)).Some?
    ensures var after := TaskRouter.ReorderTasks(tasks, DropMoves(ids, sectionId)).value;
      k in after && after[k] == tasks[k]
  {
    var moves := DropMoves(ids, sectionId);
    DropCommits(tasks, ids, sectionId);
    TaskRouter.ReorderAt(tasks, moves, k);
  }

  /** Every stored task names a stored section. */
  predicate SectionsExist(tasks: map<Id, Task>, sections: map<Id, Section>)
  {
    forall k | k in tasks :: tasks[k].sectionId in sections
  }

  /** As written, task rows keep their drag handle on the Upcoming page, whose
      sections are computed: `Overdue`, or a day's timestamp as text. A drop of
      stored tasks there commits and leaves a task in a section that is not stored. */
  lemma DropOnUpcomingOrphans(tasks: map<Id, Task>, sections: map<Id, Section>, ids: seq<Id>,
      fetched: Option<seq<Task>>, today: Timestamp, now: Timestamp, k: int)
    requires SectionsExist(tasks, sections)
    requires |ids| > 0 && forall j | 0 <= j < |ids| :: ids[j] in tasks
    requires 0 <= k < |Upcoming.UpcomingViewAsWritten(fetched, today, now).sections|
    requires Upcoming.UpcomingViewAsWritten(fetched, today, now).sections[k].id !in sections
    ensures var id := Upcoming.UpcomingViewAsWritten(fetched, today, now).sections[k].id;
      && TaskDragEnd(Some(id), ids).Some?
      && TaskRouter.ReorderTasks(tasks, TaskDragEnd(Some(id), ids).value).Some?
      && !SectionsExist(TaskRouter.ReorderTasks(tasks, TaskDragEnd(Some(id), ids).value).value, sections)
  {
    var days := Upcoming.WindowAsWritten(today);
    var id := Upcoming.UpcomingViewAsWritten(fetched, today, now).sections[k].id;
    Upcoming.ViewOverIds(fetched, days, now);
    assert id != [] by {
      if k > 0 {
        assert id == Days.IntString(days[k - 1]);
      }
    }
    var moves := DropMoves(ids, id);
    var last := ids[|ids| - 1];
    DropCommits(tasks, ids, id);
    assert LastEntry(moves, TaskRouter.MoveId, last) == |moves| - 1;
    TaskRouter.ReorderAt(tasks, moves, last);
  }

  /** The drag-end as intended: only a container that names a stored section
      receives a drop, so the computed sections of the Upcoming page receive none. */
  function StoredTaskDragEnd(container: Option<string>, ids: seq<Id>, sections: map<Id, Section>): (r: Option<seq<TaskRouter.TaskMove>>)
    ensures r.Some? <==> TaskDragEnd(container, ids).Some? && container.value in sections
    ensures r.Some? ==> r.value == DropMoves(ids, container.value)
  {
    if container.Some? && container.value in sections then TaskDragEnd(container, ids) else None
  }

  /** A guarded drop of stored tasks commits and keeps every task in a stored section. */
  lemma StoredDropKeepsSectionsExist(tasks: map<Id, Task>, sections: map<Id, Section>, container: Option<string>, ids: seq<Id>)
    requires SectionsExist(tasks, sections)
    requires forall j | 0 <= j < |ids| :: ids[j] in tasks
    ensures var r := StoredTaskDragEnd(container, ids, sections);
      r.Some? ==>
        && TaskRouter.ReorderTasks(tasks, r.value).Some?
        && SectionsExist(TaskRouter.ReorderTasks(tasks, r.value).value, sections)
  {
    var r := StoredTaskDragEnd(container, ids, sections);
    if r.Some? {
      var moves := r.value;
      DropCommits(tasks, ids, container.value);
      var after := TaskRouter.ReorderTasks(tasks, moves).value;
      ApplyAllKeys(tasks, moves, TaskRouter.MoveId, TaskRouter.MoveTask);
      forall k | k in after ensures after[k].sectionId in sections {
        TaskRouter.ReorderAt(tasks, moves, k);
      }
    }
  }

  // -------------------------------------------------------- draggable tasks

  /** `!t.parentId`: no parent, or an empty parent id. */
  predicate WithoutParent(t: Task)
  {
    t.parentId.None? || t.parentId == Some([])
  }

  /** The list a section lets the user drag: its listed tasks without a parent, in order. */
  function DraggableTasks(listed: seq<TaskWithChildren>): (r: seq<TaskWithChildren>)
    ensures forall i | 0 <= i < |r| :: WithoutParent(r[i].task)
  {
    var p := (x: TaskWithChildren) => WithoutParent(x.task);
    var r := Filter(listed, p);
    assert forall i | 0 <= i < |r| :: WithoutParent(r[i].task) by {
      forall i | 0 <= i < |r| ensures WithoutParent(r[i].task) {
        FilterMembers(listed, p, r[i]);
      }
    }
    r
  }

  /** For a section as the page reads it, the draggable list holds exactly the
      section's open tasks that have no parent. */
  lemma DraggableAreOpenTopLevel(tasks: map<Id, Task>, sectionId: Id, listed: seq<TaskWithChildren>, t: Task)
    requires ListsSectionTasks(tasks, sectionId, listed)
    ensures (exists x | x in DraggableTasks(listed) :: x.task == t) <==>
      t in tasks.Values && t.sectionId == sectionId && !t.complete && WithoutParent(t)
  {
    var p := (x: TaskWithChildren) => WithoutParent(x.task);
    if t in tasks.Values && t.sectionId == sectionId && !t.complete && WithoutParent(t) {
      var i :| 0 <= i < |listed| && listed[i].task == t;
      FilterMembers(listed, p, listed[i]);
    }
    if exists x | x in DraggableTasks(listed) :: x.task == t {
      var x :| x in DraggableTasks(listed) && x.task == t;
      FilterMembers(listed, p, x);
    }
  }

  // ------------------------------------------------------------- visibility

  /** Sections can be dragged except on the Today and Upcoming pages. */
  predicate SectionDragEnabled(collectionName: string)
  {
    collectionName != TodayName && collectionName != Upcoming.UpcomingId
  }

  /** The drag handle of a section. */
  predicate ShowDragHandle(sectionName: string, collectionId: Id)
  {
    && sectionName != Upcoming.OverdueId && sectionName != UncategorizedName
    && collectionId != TodayName && collectionId != Upcoming.UpcomingId
  }

  /** Clicking the collection's title starts a rename. */
  predicate CanRenameCollection(name: string)
  {
    name != InboxName && name != TodayName && name != Upcoming.UpcomingId
  }

  /** Clicking a section's title starts a rename. */
  predicate CanRenameSection(name: string)
  {
    name != UncategorizedName
  }

  /** The section menu, whose one entry deletes the section. */
  predicate ShowSectionMenu(name: string)
  {
    name != UncategorizedName && name != Upcoming.OverdueId
  }

  /** "Add task" under a section. */
  predicate ShowAddTask(sectionName: string)
  {
    sectionName != Upcoming.OverdueId
  }

  /** "Add section" under the sections. */
  predicate ShowAddSection(collectionName: string)
  {
    collectionName != TodayName && collectionName != Upcoming.UpcomingId
  }

  /** The section every collection is created with can be neither dragged,
      renamed nor deleted from the page. */
  lemma DefaultSectionIsFixed(sectionId: Id, collectionId: Id, pageId: Id)
    ensures var s := DefaultSection(sectionId, collectionId);
      !ShowDragHandle(s.name, pageId) && !CanRenameSection(s.name) && !ShowSectionMenu(s.name)
  {
  }

  /** The Upcoming page offers no section reordering, no renaming of the page and
      no new section; its Overdue section offers neither deletion nor "Add task".
      Its task rows keep their drag handles (`DropOnUpcomingOrphans`). */
  lemma UpcomingPageIsFixed(tasks: Option<seq<Task>>, today: Timestamp, now: Timestamp, sectionName: string)
    ensures var v := Upcoming.UpcomingView(tasks, today, now);
      && !SectionDragEnabled(v.name) && !ShowAddSection(v.name) && !CanRenameCollection(v.name)
      && !ShowDragHandle(sectionName, v.id)
      && v.sections[0].name == Upcoming.Title(Upcoming.OverdueId)
      && !ShowSectionMenu(Upcoming.OverdueId) && !ShowAddTask(Upcoming.OverdueId)
  {
    Upcoming.ViewShape(tasks, today, now);
  }

  // ----------------------------------------------------------- header count

  function TaskLists(sections: seq<SectionDetail>): (r: seq<seq<TaskWithChildren>>)
    ensures |r| == |sections| && forall i | 0 <= i < |r| :: r[i] == sections[i].tasks
  {
    seq(|sections|, i requires 0 <= i < |sections| => sections[i].tasks)
  }

  /** The header's `sections.flatMap((s) => s.tasks).length`: the listed tasks
      of every section together. */
  function HeaderCount(sections: seq<SectionDetail>): (n: nat)
    ensures n == SumOfLengths(TaskLists(sections))
  {
    FlattenLength(TaskLists(sections));
    |Flatten(TaskLists(sections))|
  }

  // ----------------------------------------------------------------- rename

  /** The rename request as written, `{...collection, name}`: the page's
      collection record carries neither `position` nor `parentId`. */
  function RenameAsWritten(c: CollectionDetail, name: string): (q: UpdateRequest)
    ensures q.id == Some(c.id) && q.name == Some(name)
    ensures q.parentId.Absent? && q.position.None?
  {
    UpdateRequest(Some(c.id), Some(name), Absent, None)
  }

  /** Every rename as written fails validation: `position` is required. */
  lemma RenameAsWrittenIsRejected(c: CollectionDetail, name: string)
    ensures ParseUpdate(RenameAsWritten(c, name)) == Err(Invalid)
  {
  }

  /** The rename as intended: the collection's own position is sent along. */
  function Rename(c: CollectionDetail, position: int, name: string): (q: UpdateRequest)
    ensures q.id == Some(c.id) && q.name == Some(name)
    ensures q.parentId.Absent? && q.position == Some(position)
  {
    UpdateRequest(Some(c.id), Some(name), Absent, Some(position))
  }

  /** Renaming a stored collection to a non-empty name passes validation and
      changes its name and nothing else. */
  lemma RenameChangesOnlyName(stored: Collection, c: CollectionDetail, name: string)
    requires stored.id == c.id && c.id != [] && name != []
    ensures ParseUpdate(Rename(c, stored.position, name)).Ok?
    ensures UpdatedCollection(stored, ParseUpdate(Rename(c, stored.position, name)).value) == stored.(name := name)
  {
  }

  // -------------------------------------------------------- add-section form

  /** The page's "Add section" form: whether it is open, and the typed name. */
  class AddSectionForm {
    var isOpen: bool
    var sectionName: string

    constructor ()
      ensures !isOpen && sectionName == []
    {
      isOpen, sectionName := false, [];
    }

    /** "Add section" and "Cancel" both flip the form open or closed. */
    method Toggle()
      modifies this
      ensures isOpen == !old(isOpen) && sectionName == old(sectionName)
    {
      isOpen := !isOpen;
    }

    method SetName(name: string)
      modifies this
      ensures sectionName == name && isOpen == old(isOpen)
    {
      sectionName := name;
    }

    /** "Add": `section.create` with the typed name. On success the form
        closes and empties; on failure it stays as it was. */
    method Add(db: Store, collectionId: Id, id: Id) returns (r: Result<Section>)
      requires db.Valid() && id !in db.sections
      modifies this, db
      ensures db.Valid()
      ensures r.Ok? <==> old(sectionName) != [] && collectionId != []
      ensures r.Ok? ==> r.value.name == old(sectionName) && r.value.collectionId == collectionId
      ensures r.Ok? ==> db.sections == old(db.sections)[id := r.value]
      ensures r.Ok? ==> !isOpen && sectionName == []
      ensures r.Err? ==> isOpen == old(isOpen) && sectionName == old(sectionName) && db.sections == old(db.sections)
      ensures db.collections == old(db.collections) && db.tasks == old(db.tasks)
      ensures db.checklistItems == old(db.checklistItems) && db.comments == old(db.comments)
    {
      r := SectionRouter.Create(db, sectionName, collectionId, id);
      if r.Ok? {
        isOpen, sectionName := false, [];
      }
    }
  }
}
