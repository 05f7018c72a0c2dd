/** The `task` procedures: the `today` and `upcoming` queries, `create` with its
    position rule, `update`, `delete` and the transactional `reorder`. */
module TaskRouter {
  import opened Common
  import opened Db
  import opened Batch
  import opened Days
  import opened Ordering
  import opened Seqs

  // ---------------------------------------------------------------- queries

  /** The `today` filter: not complete and due in `[startOfDay(now), endOfDay(now))`. */
  predicate DueToday(t: Task, now: Timestamp)
  {
    && !t.complete
    && t.dueDate.Some?
    && StartOfDay(now) <= t.dueDate.value < EndOfDay(now)
  }

  /** The `today` filter in calendar terms: an open task due on the day of
      `now`, except at its very last millisecond (`lt: endOfDay`). */
  lemma DueTodayIff(t: Task, now: Timestamp)
    ensures DueToday(t, now) <==>
      && !t.complete
      && t.dueDate.Some?
      && StartOfDay(t.dueDate.value) == StartOfDay(now)
      && t.dueDate.value != EndOfDay(now)
  {
    if t.dueDate.Some? {
      SameDayIff(t.dueDate.value, StartOfDay(now));
    }
  }

  /** `task.today`: the open tasks due today, each once, ordered by text. */
  method Today(db: Store, now: Timestamp) returns (r: seq<Task>)
    requires db.Valid()
    ensures forall t :: t in r <==> t in db.tasks.Values && DueToday(t, now)
    ensures forall i, j | 0 <= i < j < |r| :: r[i].id != r[j].id
    ensures forall i, j | 0 <= i < j < |r| :: LexLe(r[i].text, r[j].text)
  {
    r := SortByText(set k | k in db.tasks && DueToday(db.tasks[k], now) :: db.tasks[k]);
    KeyedRowsHaveDistinctIds(db.tasks, r);
  }

  /** `task.upcoming`: every task, each once, ordered by text; no filter. */
  method Upcoming(db: Store) returns (r: seq<Task>)
    requires db.Valid()
    ensures forall t :: t in r <==> t in db.tasks.Values
    ensures forall i, j | 0 <= i < j < |r| :: r[i].id != r[j].id
    ensures forall i, j | 0 <= i < j < |r| :: LexLe(r[i].text, r[j].text)
  {
    r := SortByText(set k | k in db.tasks :: db.tasks[k]);
    KeyedRowsHaveDistinctIds(db.tasks, r);
  }

  /** Different rows of a keyed table carry different ids. */
  lemma KeyedRowsHaveDistinctIds(tasks: map<Id, Task>, r: seq<Task>)
    requires Keyed(tasks, TaskId)
    requires Distinct(r) && forall i | 0 <= i < |r| :: r[i] in tasks.Values
    ensures forall i, j | 0 <= i < j < |r| :: r[i].id != r[j].id
  {
    forall i, j | 0 <= i < j < |r| ensures r[i].id != r[j].id {
      RowIsStoredUnderItsId(tasks, r[i]);
      RowIsStoredUnderItsId(tasks, r[j]);
    }
  }

  lemma RowIsStoredUnderItsId(tasks: map<Id, Task>, t: Task)
    requires Keyed(tasks, TaskId) && t in tasks.Values
    ensures t.id in tasks && tasks[t.id] == t
  {
    assert exists k :: k in tasks && tasks[k] == t;
    var k :| k in tasks && tasks[k] == t;
  }

  // ----------------------------------------------------------------- create

  datatype CreateInput = CreateInput(
    text: string,
    description: Nullish<string>,
    dueDate: Nullish<Timestamp>,
    priority: Nullish<Priority>,
    sectionId: Id,
    parentTaskId: Nullish<Id>)

  /** `text` and `sectionId` must be non-empty. */
  predicate CreateInputValid(input: CreateInput)
  {
    input.text != [] && input.sectionId != []
  }

  /** The tasks of a section (`_count.tasks`): completed tasks and sub-tasks included. */
  function TasksInSection(tasks: map<Id, Task>, sectionId: Id): set<Id>
  {
    set k | k in tasks && tasks[k].sectionId == sectionId
  }

  /** The children of a task (`children`). */
  function ChildrenOf(tasks: map<Id, Task>, parentId: Id): set<Id>
  {
    set k | k in tasks && tasks[k].parentId == Some(parentId)
  }

  /** `if (input.parentTaskId)`: a parent id that is given and not empty. */
  predicate NamesParent(p: Nullish<Id>)
  {
    p.Given? && p.value != []
  }

  /** The position a new task gets. */
  function NewTaskPosition(sections: map<Id, Section>, tasks: map<Id, Task>, input: CreateInput): int
  {
    var inSection := if input.sectionId in sections then |TasksInSection(tasks, input.sectionId)| else 0;
    if NamesParent(input.parentTaskId) && input.parentTaskId.value in tasks
    then |ChildrenOf(tasks, input.parentTaskId.value)| + 1
    else inSection
  }

  /** The row `create` stores. A new task is not complete. */
  function NewTask(sections: map<Id, Section>, tasks: map<Id, Task>, input: CreateInput, id: Id): Task
  {
    Task(id, input.text, Stored(input.description), Stored(input.dueDate), Stored(input.priority),
      false, NewTaskPosition(sections, tasks, input), input.sectionId, Stored(input.parentTaskId))
  }

  /** `task.create`. `id` is the fresh id the store generates. */
  method Create(db: Store, input: CreateInput, id: Id) returns (r: Result<Task>)
    requires db.Valid() && id !in db.tasks
    modifies db
    ensures db.Valid()
    ensures r.Ok? <==> CreateInputValid(input)
    ensures r.Err? ==> r.error == Invalid && db.tasks == old(db.tasks)
    ensures r.Ok? ==> r.value == NewTask(old(db.sections), old(db.tasks), input, id)
    ensures r.Ok? ==> db.tasks == old(db.tasks)[id := r.value]
    ensures db.collections == old(db.collections) && db.sections == old(db.sections)
    ensures db.checklistItems == old(db.checklistItems) && db.comments == old(db.comments)
  {
    if !CreateInputValid(input) {
      return Err(Invalid);
    }
    var position := if input.sectionId in db.sections then |TasksInSection(db.tasks, input.sectionId)| else 0;
    if NamesParent(input.parentTaskId) {
      var parentId := input.parentTaskId.value;
      if parentId in db.tasks {
        position := |ChildrenOf(db.tasks, parentId)| + 1;
      }
    }
    var t := Task(id, input.text, Stored(input.description), Stored(input.dueDate), Stored(input.priority),
      false, position, input.sectionId, Stored(input.parentTaskId));
    db.tasks := db.tasks[id := t];
    r := Ok(t);
  }

  /** A new top-level task goes after every task already in its section,
      counting completed tasks and sub-tasks too; it is 0 in an unknown section. */
  lemma TopLevelPosition(sections: map<Id, Section>, tasks: map<Id, Task>, input: CreateInput)
    requires !NamesParent(input.parentTaskId) || input.parentTaskId.value !in tasks
    ensures input.sectionId in sections ==>
      NewTaskPosition(sections, tasks, input) == |set k | k in tasks && tasks[k].sectionId == input.sectionId|
    ensures input.sectionId !in sections ==> NewTaskPosition(sections, tasks, input) == 0
  {
  }

  /** Storing a new row adds it to its section's count and leaves the other sections' counts. */
  lemma SectionCountGrows(tasks: map<Id, Task>, id: Id, t: Task, s: Id)
    requires id !in tasks
    ensures |TasksInSection(tasks[id := t], s)| == |TasksInSection(tasks, s)| + (if s == t.sectionId then 1 else 0)
  {
    if s == t.sectionId {
      assert TasksInSection(tasks[id := t], s) == TasksInSection(tasks, s) + {id};
    } else {
      assert TasksInSection(tasks[id := t], s) == TasksInSection(tasks, s);
    }
  }

  /** Storing a new row adds it to its parent's children and leaves every other task's children. */
  lemma ChildCountGrows(tasks: map<Id, Task>, id: Id, t: Task, p: Id)
    requires id !in tasks
    ensures |ChildrenOf(tasks[id := t], p)| == |ChildrenOf(tasks, p)| + (if t.parentId == Some(p) then 1 else 0)
  {
    if t.parentId == Some(p) {
      assert ChildrenOf(tasks[id := t], p) == ChildrenOf(tasks, p) + {id};
    } else {
      assert ChildrenOf(tasks[id := t], p) == ChildrenOf(tasks, p);
    }
  }

  /** Two top-level tasks created one after the other in an existing section get
      consecutive positions. */
  lemma ConsecutiveTopLevelPositions(sections: map<Id, Section>, tasks: map<Id, Task>, a: CreateInput, b: CreateInput, ida: Id, idb: Id)
    requires ida !in tasks && idb != ida
    requires a.sectionId == b.sectionId && a.sectionId in sections
    requires a.parentTaskId == Absent && b.parentTaskId == Absent
    ensures var after := tasks[ida := NewTask(sections, tasks, a, ida)];
      NewTaskPosition(sections, after, b) == NewTaskPosition(sections, tasks, a) + 1
  {
    SectionCountGrows(tasks, ida, NewTask(sections, tasks, a, ida), a.sectionId);
  }

  /** Sub-tasks of an existing parent are numbered from 1: the first gets 1, and
      each next one gets one more than the one before. */
  lemma SubTaskPositions(sections: map<Id, Section>, tasks: map<Id, Task>, a: CreateInput, b: CreateInput, ida: Id, idb: Id)
    requires ida !in tasks
    requires NamesParent(a.parentTaskId) && a.parentTaskId.value in tasks && b.parentTaskId == a.parentTaskId
    ensures ChildrenOf(tasks, a.parentTaskId.value) == {} ==> NewTaskPosition(sections, tasks, a) == 1
    ensures var after := tasks[ida := NewTask(sections, tasks, a, ida)];
      NewTaskPosition(sections, after, b) == NewTaskPosition(sections, tasks, a) + 1
  {
    ChildCountGrows(tasks, ida, NewTask(sections, tasks, a, ida), a.parentTaskId.value);
  }

  /** A sub-task is also one of its section's tasks, so it moves the next
      top-level position of that section on by one. */
  lemma SubTaskTakesSectionSlot(sections: map<Id, Section>, tasks: map<Id, Task>, a: CreateInput, b: CreateInput, ida: Id)
    requires ida !in tasks
    requires NamesParent(a.parentTaskId) && a.parentTaskId.value in tasks
    requires b.sectionId == a.sectionId && b.sectionId in sections && b.parentTaskId == Absent
    ensures var after := tasks[ida := NewTask(sections, tasks, a, ida)];
      NewTaskPosition(sections, after, b) == NewTaskPosition(sections, tasks, b) + 1
  {
    SectionCountGrows(tasks, ida, NewTask(sections, tasks, a, ida), a.sectionId);
  }

  // ----------------------------------------------------------------- update

  datatype UpdateInput = UpdateInput(
    id: Id,
    text: string,
    description: Nullish<string>,
    complete: bool,
    position: int,
    dueDate: Nullish<Timestamp>,
    priority: Nullish<Priority>,
    sectionId: Id)

  /** `id`, `text` and `sectionId` must be non-empty. */
  predicate UpdateInputValid(u: UpdateInput)
  {
    u.id != [] && u.text != [] && u.sectionId != []
  }

  /** The row `update` leaves: the seven input fields written, `id` and `parentId` kept. */
  function Updated(t: Task, u: UpdateInput): (r: Task)
    ensures r.id == t.id && r.parentId == t.parentId
    ensures r.text == u.text && r.complete == u.complete && r.position == u.position && r.sectionId == u.sectionId
    ensures r.description == Overwrite(u.description, t.description)
    ensures r.dueDate == Overwrite(u.dueDate, t.dueDate)
    ensures r.priority == Overwrite(u.priority, t.priority)
  {
    t.(text := u.text, description := Overwrite(u.description, t.description), complete := u.complete,
      position := u.position, dueDate := Overwrite(u.dueDate, t.dueDate),
      priority := Overwrite(u.priority, t.priority), sectionId := u.sectionId)
  }

  /** Sending the same update twice leaves what sending it once does. */
  lemma UpdateIdempotent(t: Task, u: UpdateInput)
    ensures Updated(Updated(t, u), u) == Updated(t, u)
  {
  }

  /** `task.update`. */
  method Update(db: Store, u: UpdateInput) returns (r: Result<Task>)
    requires db.Valid()
    modifies db
    ensures db.Valid()
    ensures !UpdateInputValid(u) ==> r == Err(Invalid)
    ensures UpdateInputValid(u) && u.id !in old(db.tasks) ==> r == Err(NotFound)
    ensures r.Err? ==> db.tasks == old(db.tasks)
    ensures UpdateInputValid(u) && u.id in old(db.tasks) ==>
      r == Ok(Updated(old(db.tasks)[u.id], u)) && db.tasks == old(db.tasks)[u.id := r.value]
    ensures db.collections == old(db.collections) && db.sections == old(db.sections)
    ensures db.checklistItems == old(db.checklistItems) && db.comments == old(db.comments)
  {
    if !UpdateInputValid(u) {
      return Err(Invalid);
    }
    if u.id !in db.tasks {
      return Err(NotFound);
    }
    var t := Updated(db.tasks[u.id], u);
    db.tasks := db.tasks[u.id := t];
    r := Ok(t);
  }

  // ----------------------------------------------------------------- delete

  /** `task.delete`: removes the one row; what the schema cascades is not modelled. */
  method Delete(db: Store, id: Id) returns (r: Result<Task>)
    requires db.Valid()
    modifies db
    ensures db.Valid()
    ensures id in old(db.tasks) ==> r == Ok(old(db.tasks)[id]) && db.tasks == old(db.tasks) - {id}
    ensures id !in old(db.tasks) ==> r == Err(NotFound) && db.tasks == old(db.tasks)
    ensures db.collections == old(db.collections) && db.sections == old(db.sections)
    ensures db.checklistItems == old(db.checklistItems) && db.comments == old(db.comments)
  {
    if id !in db.tasks {
      return Err(NotFound);
    }
    r := Ok(db.tasks[id]);
    db.tasks := db.tasks - {id};
  }

  // ---------------------------------------------------------------- reorder

  datatype TaskMove = TaskMove(id: Id, position: int, sectionId: Id)

  function MoveId(m: TaskMove): Id { m.id }

  /** One row update of the batch: position and section. */
  function MoveTask(t: Task, m: TaskMove): Task
  {
    t.(position := m.position, sectionId := m.sectionId)
  }

  /** Every entry's `id` must be non-empty (`sectionId` may be empty). */
  predicate MovesValid(moves: seq<TaskMove>)
  {
    forall i | 0 <= i < |moves| :: moves[i].id != []
  }

  /** What a committed `reorder` batch leaves in the task table. */
  function ReorderTasks(tasks: map<Id, Task>, moves: seq<TaskMove>): Option<map<Id, Task>>
  {
    ApplyAll(tasks, moves, MoveId, MoveTask)
  }

  /** `task.reorder`: the updates run in list order in one transaction, committed
      only when every one of them succeeds. */
  method Reorder(db: Store, moves: seq<TaskMove>) returns (r: Result<()>)
    requires db.Valid()
    modifies db
    ensures db.Valid()
    ensures !MovesValid(moves) ==> r == Err(Invalid)
    ensures MovesValid(moves) && ReorderTasks(old(db.tasks), moves).None? ==> r == Err(NotFound)
    ensures r.Ok? <==> MovesValid(moves) && ReorderTasks(old(db.tasks), moves).Some?
    ensures r.Ok? ==> db.tasks == ReorderTasks(old(db.tasks), moves).value
    ensures r.Err? ==> db.tasks == old(db.tasks)
    ensures db.collections == old(db.collections) && db.sections == old(db.sections)
    ensures db.checklistItems == old(db.checklistItems) && db.comments == old(db.comments)
  {
    if exists i | 0 <= i < |moves| :: moves[i].id == [] {
      return Err(Invalid);
    }
    var tx := db.tasks;
    for i := 0 to |moves|
      invariant ReorderTasks(db.tasks, moves[..i]) == Some(tx)
      invariant Keyed(tx, TaskId)
      invariant db.tasks == old(db.tasks)
    {
      var m := moves[i];
      assert moves[..i + 1][..i] == moves[..i];
      if m.id !in tx {
        PrefixFailureAborts(db.tasks, moves, i + 1, MoveId, MoveTask);
        return Err(NotFound);
      }
      tx := tx[m.id := MoveTask(tx[m.id], m)];
    }
    assert moves[..|moves|] == moves;
    db.tasks := tx;
    r := Ok(());
  }

  lemma MoveTaskOverwrites()
    ensures Overwriting(MoveTask)
  {
  }

  /** A batch commits exactly when every listed task exists. */
  lemma ReorderSucceedsIff(tasks: map<Id, Task>, moves: seq<TaskMove>)
    ensures ReorderTasks(tasks, moves).Some? <==> forall i | 0 <= i < |moves| :: moves[i].id in tasks
  {
    ApplyAllSucceedsIff(tasks, moves, MoveId, MoveTask);
  }

  /** After a committed batch: no task is added or removed; a listed task has the
      position and section of its LAST entry and every other field as before; an
      unlisted task is unchanged. */
  lemma ReorderAt(tasks: map<Id, Task>, moves: seq<TaskMove>, k: Id)
    requires ReorderTasks(tasks, moves).Some? && k in tasks
    ensures ReorderTasks(tasks, moves).value.Keys == tasks.Keys
    ensures var j := LastEntry(moves, MoveId, k);
      ReorderTasks(tasks, moves).value[k] ==
        if j < 0 then tasks[k] else tasks[k].(position := moves[j].position, sectionId := moves[j].sectionId)
  {
    ApplyAllKeys(tasks, moves, MoveId, MoveTask);
    MoveTaskOverwrites();
    ApplyAllAt(tasks, moves, MoveId, MoveTask, k);
  }

  /** The batch keeps every row stored under its own id. */
  lemma ReorderKeepsKeyed(tasks: map<Id, Task>, moves: seq<TaskMove>)
    requires Keyed(tasks, TaskId) && ReorderTasks(tasks, moves).Some?
    ensures Keyed(ReorderTasks(tasks, moves).value, TaskId)
  {
    forall k | k in ReorderTasks(tasks, moves).value ensures ReorderTasks(tasks, moves).value[k].id == k {
      ApplyAllKeys(tasks, moves, MoveId, MoveTask);
      ReorderAt(tasks, moves, k);
    }
  }
}
