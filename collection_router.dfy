/** The `collection` procedures: the `readAll`, `readOne` and `inbox` reads,
    `create` with its `Uncategorized` section, `update`, `delete`, the
    transactional `reorder`, and the `initializeCollections` bootstrap. */
module CollectionRouter {
  import opened Common
  import opened Db
  import opened Batch
  import opened Ordering
  import opened Seqs
  import TaskRouter

  const InboxName: string := "Inbox"
  const UncategorizedName: string := "Uncategorized"

  // ------------------------------------------------- what the reads select

  /** The tasks `readAll` and `inbox` list: `complete` not true and no parent. */
  predicate OpenTopLevel(t: Task)
  {
    !t.complete && t.parentId.None?
  }

  /** The sections of a collection. */
  function SectionsOf(sections: map<Id, Section>, collectionId: Id): set<Id>
  {
    set k | k in sections && sections[k].collectionId == collectionId
  }

  /** The open top-level tasks of one section. */
  function OpenTopLevelIn(tasks: map<Id, Task>, sectionId: Id): set<Id>
  {
    set k | k in tasks && tasks[k].sectionId == sectionId && OpenTopLevel(tasks[k])
  }

  /** The open top-level tasks whose section is one of `sectionIds`. */
  function OpenTopLevelUnder(tasks: map<Id, Task>, sectionIds: set<Id>): set<Id>
  {
    set k | k in tasks && tasks[k].sectionId in sectionIds && OpenTopLevel(tasks[k])
  }

  /** A section as `readAll` and `inbox` select it: the `text` of its open
      top-level tasks, and `_count.tasks` where the query selects it. */
  datatype SectionSummary = SectionSummary(id: Id, name: string, position: int, count: Option<nat>, tasks: seq<string>)

  /** A collection as `readAll` returns it, with its computed `taskCount`. */
  datatype CollectionSummary = CollectionSummary(id: Id, name: string, sections: seq<SectionSummary>, taskCount: nat)

  function SummaryIds(ss: seq<SectionSummary>): set<Id>
  {
    set i | 0 <= i < |ss| :: ss[i].id
  }

  /** `sections.map((s) => s.tasks.length).reduce((a, b) => a + b, 0)`. */
  function TaskCount(ss: seq<SectionSummary>): nat
    decreases |ss|
  {
    if ss == [] then 0 else TaskCount(ss[..|ss| - 1]) + |ss[|ss| - 1].tasks|
  }

  /** The ids of all sections but the last, plus the last one's. */
  lemma SummaryIdsSnoc(ss: seq<SectionSummary>)
    requires ss != []
    ensures SummaryIds(ss) == SummaryIds(ss[..|ss| - 1]) + {ss[|ss| - 1].id}
  {
    var init := ss[..|ss| - 1];
    forall x | x in SummaryIds(ss) ensures x in SummaryIds(init) + {ss[|ss| - 1].id} {
      var i :| 0 <= i < |ss| && ss[i].id == x;
      if i < |init| {
        assert init[i] == ss[i];
      }
    }
    forall x | x in SummaryIds(init) ensures x in SummaryIds(ss) {
      var i :| 0 <= i < |init| && init[i].id == x;
      assert ss[i] == init[i];
    }
  }

  /** Adding one section adds exactly its open top-level tasks, and none of
      them were counted before when the section was not yet among `ids`. */
  lemma UnderAddSection(tasks: map<Id, Task>, ids: set<Id>, id: Id)
    requires id !in ids
    ensures OpenTopLevelUnder(tasks, ids + {id}) == OpenTopLevelUnder(tasks, ids) + OpenTopLevelIn(tasks, id)
    ensures OpenTopLevelUnder(tasks, ids) * OpenTopLevelIn(tasks, id) == {}
  {
  }

  /** Summing the sections' list lengths counts every open top-level task of
      those sections once: a task belongs to exactly one section. */
  lemma {:induction false} TaskCountIsOpenTopLevel(tasks: map<Id, Task>, ss: seq<SectionSummary>)
    requires forall i, j | 0 <= i < j < |ss| :: ss[i].id != ss[j].id
    requires forall i | 0 <= i < |ss| :: |ss[i].tasks| == |OpenTopLevelIn(tasks, ss[i].id)|
    ensures TaskCount(ss) == |OpenTopLevelUnder(tasks, SummaryIds(ss))|
    decreases |ss|
  {
    if ss == [] {
      assert OpenTopLevelUnder(tasks, SummaryIds(ss)) == {};
    } else {
      var init, last := ss[..|ss| - 1], ss[|ss| - 1];
      assert forall i | 0 <= i < |init| :: init[i] == ss[i];
      TaskCountIsOpenTopLevel(tasks, init);
      SummaryIdsSnoc(ss);
      assert last.id !in SummaryIds(init);
      UnderAddSection(tasks, SummaryIds(init), last.id);
    }
  }

  /** `ids` lists each element of `s` once. */
  ghost predicate Enumerates(ids: seq<Id>, s: set<Id>)
  {
    && Distinct(ids)
    && (forall i | 0 <= i < |ids| :: ids[i] in s)
    && (forall k | k in s :: k in ids)
  }

  /** The texts of the listed tasks, in list order. */
  function TextsOf(tasks: map<Id, Task>, ids: seq<Id>): (r: seq<string>)
    requires forall i | 0 <= i < |ids| :: ids[i] in tasks
    ensures |r| == |ids| && forall i | 0 <= i < |r| :: r[i] == tasks[ids[i]].text
  {
    seq(|ids|, i requires 0 <= i < |ids| => tasks[ids[i]].text)
  }

  /** `s` is what the read returns for the stored section `s.id`: its `tasks`
      are the texts of its open top-level tasks, one entry per task. */
  ghost predicate Summarizes(sections: map<Id, Section>, tasks: map<Id, Task>, s: SectionSummary, withCount: bool)
  {
    && s.id in sections
    && s.name == sections[s.id].name
    && s.position == sections[s.id].position
    && s.count == (if withCount then Some(|TaskRouter.TasksInSection(tasks, s.id)|) else None)
    && |s.tasks| == |OpenTopLevelIn(tasks, s.id)|
    && exists ids | Enumerates(ids, OpenTopLevelIn(tasks, s.id)) :: TextsOf(tasks, ids) == s.tasks
  }

  /** `c` is what the read returns for the stored collection `c.id`. */
  ghost predicate SummarizesCollection(db: Store, c: CollectionSummary, withCount: bool)
    reads db
  {
    && c.id in db.collections
    && c.name == db.collections[c.id].name
    && SummaryIds(c.sections) == SectionsOf(db.sections, c.id)
    && (forall i, j | 0 <= i < j < |c.sections| :: c.sections[i].id != c.sections[j].id)
    && (forall i | 0 <= i < |c.sections| :: Summarizes(db.sections, db.tasks, c.sections[i], withCount))
    && c.taskCount == |OpenTopLevelUnder(db.tasks, SectionsOf(db.sections, c.id))|
  }

  method SummarizeSection(db: Store, sectionId: Id, withCount: bool) returns (r: SectionSummary)
    requires db.Valid() && sectionId in db.sections
    ensures r.id == sectionId
    ensures Summarizes(db.sections, db.tasks, r, withCount)
  {
    var tasks := db.tasks;
    var ids := Enumerate(OpenTopLevelIn(tasks, sectionId));
    var texts := TextsOf(tasks, ids);
    assert Enumerates(ids, OpenTopLevelIn(tasks, sectionId));
    var s := db.sections[sectionId];
    var count := if withCount then Some(|TaskRouter.TasksInSection(tasks, sectionId)|) else None;
    r := SectionSummary(sectionId, s.name, s.position, count, texts);
  }

  /** One collection with its sections, in no particular order, and `taskCount`. */
  method SummarizeCollection(db: Store, id: Id, withCount: bool) returns (r: CollectionSummary)
    requires db.Valid() && id in db.collections
    ensures r.id == id
    ensures SummarizesCollection(db, r, withCount)
  {
    var secIds := Enumerate(SectionsOf(db.sections, id));
    var ss: seq<SectionSummary> := [];
    for i := 0 to |secIds|
      invariant |ss| == i
      invariant forall j | 0 <= j < i :: ss[j].id == secIds[j] && Summarizes(db.sections, db.tasks, ss[j], withCount)
    {
      var s := SummarizeSection(db, secIds[i], withCount);
      ss := ss + [s];
    }
    TaskCountIsOpenTopLevel(db.tasks, ss);
    assert SummaryIds(ss) == SectionsOf(db.sections, id) by {
      forall x | x in SectionsOf(db.sections, id) ensures x in SummaryIds(ss) {
        var j :| 0 <= j < |secIds| && secIds[j] == x;
        assert ss[j].id == x;
      }
    }
    r := CollectionSummary(id, db.collections[id].name, ss, TaskCount(ss));
  }

  // ---------------------------------------------------------------- readAll

  /** The summaries of the listed collections, in list order. */
  method SummarizeEach(db: Store, ids: seq<Id>) returns (r: seq<CollectionSummary>)
    requires db.Valid() && forall i | 0 <= i < |ids| :: ids[i] in db.collections
    ensures |r| == |ids|
    ensures forall j | 0 <= j < |r| :: r[j].id == ids[j] && SummarizesCollection(db, r[j], false)
  {
    r := [];
    for i := 0 to |ids|
      invariant |r| == i
      invariant forall j | 0 <= j < i :: r[j].id == ids[j] && SummarizesCollection(db, r[j], false)
    {
      var c := SummarizeCollection(db, ids[i], false);
      r := r + [c];
    }
  }

  /** `collection.readAll`: every collection once, by ascending position, each
      with its sections and the number of its open top-level tasks. */
  method ReadAll(db: Store) returns (r: seq<CollectionSummary>)
    requires db.Valid()
    ensures |r| == |db.collections|
    ensures forall k | k in db.collections :: exists i | 0 <= i < |r| :: r[i].id == k
    ensures forall i, j | 0 <= i < j < |r| :: r[i].id != r[j].id
    ensures forall i | 0 <= i < |r| :: SummarizesCollection(db, r[i], false)
    ensures forall i | 0 <= i < |r| :: r[i].id in db.collections
    ensures forall i, j | 0 <= i < j < |r| :: db.collections[r[i].id].position <= db.collections[r[j].id].position
  {
    var cs := db.collections;
    var pos := (k: Id) => if k in cs then cs[k].position else 0;
    var ids := SortByPosition(cs.Keys, pos);
    r := SummarizeEach(db, ids);
    forall k | k in db.collections ensures exists i | 0 <= i < |r| :: r[i].id == k {
      var i :| 0 <= i < |ids| && ids[i] == k;
      assert r[i].id == k;
    }
    forall i, j | 0 <= i < j < |r| ensures cs[r[i].id].position <= cs[r[j].id].position {
      assert pos(ids[i]) <= pos(ids[j]);
    }
  }

  // ---------------------------------------------------------------- readOne

  /** A task as `readOne` returns it, with its children. */
  datatype TaskWithChildren = TaskWithChildren(task: Task, children: seq<Task>)

  datatype SectionDetail = SectionDetail(id: Id, name: string, position: int, count: nat, tasks: seq<TaskWithChildren>)

  datatype CollectionDetail = CollectionDetail(id: Id, name: string, sections: seq<SectionDetail>)

  /** `children` of `parentId`: every task whose parent it is, by position. */
  ghost predicate ListsChildren(tasks: map<Id, Task>, parentId: Id, r: seq<Task>)
  {
    && Distinct(r)
    && (forall t :: t in r <==> t in tasks.Values && t.parentId == Some(parentId))
    && (forall i, j | 0 <= i < j < |r| :: r[i].position <= r[j].position)
  }

  /** The `tasks` of section `sectionId` in `readOne`: every task of the section
      that is not complete (sub-tasks included), by position, each with its children. */
  ghost predicate ListsSectionTasks(tasks: map<Id, Task>, sectionId: Id, r: seq<TaskWithChildren>)
  {
    && (forall i, j | 0 <= i < j < |r| :: r[i].task != r[j].task)
    && (forall i | 0 <= i < |r| :: r[i].task in tasks.Values && r[i].task.sectionId == sectionId && !r[i].task.complete)
    && (forall t | t in tasks.Values && t.sectionId == sectionId && !t.complete :: exists i | 0 <= i < |r| :: r[i].task == t)
    && (forall i, j | 0 <= i < j < |r| :: r[i].task.position <= r[j].task.position)
    && (forall i | 0 <= i < |r| :: ListsChildren(tasks, r[i].task.id, r[i].children))
  }

  /** The `sections` of collection `id` in `readOne`, by position. */
  ghost predicate ListsSections(sections: map<Id, Section>, tasks: map<Id, Task>, id: Id, r: seq<SectionDetail>)
  {
    && (forall i, j | 0 <= i < j < |r| :: r[i].id != r[j].id)
    && (forall k | k in SectionsOf(sections, id) :: exists i | 0 <= i < |r| :: r[i].id == k)
    && (forall i | 0 <= i < |r| :: r[i].id in SectionsOf(sections, id) && r[i].name == sections[r[i].id].name && r[i].position == sections[r[i].id].position)
    && (forall i, j | 0 <= i < j < |r| :: r[i].position <= r[j].position)
    && (forall i | 0 <= i < |r| :: r[i].count == |TaskRouter.TasksInSection(tasks, r[i].id)|)
    && (forall i | 0 <= i < |r| :: ListsSectionTasks(tasks, r[i].id, r[i].tasks))
  }

  function SectionPosition(s: Section): int { s.position }

  method Children(db: Store, parentId: Id) returns (r: seq<Task>)
    ensures ListsChildren(db.tasks, parentId, r)
  {
    var tasks := db.tasks;
    r := SortByPosition(set k | k in tasks && tasks[k].parentId == Some(parentId) :: tasks[k], TaskPosition);
  }

  method SectionTasks(db: Store, sectionId: Id) returns (r: seq<TaskWithChildren>)
    ensures ListsSectionTasks(db.tasks, sectionId, r)
  {
    var tasks := db.tasks;
    var rows := SortByPosition(OpenRowsIn(tasks, sectionId), TaskPosition);
    r := [];
    for i := 0 to |rows|
      invariant |r| == i
      invariant forall j | 0 <= j < i :: r[j].task == rows[j] && ListsChildren(tasks, rows[j].id, r[j].children)
    {
      var children := Children(db, rows[i].id);
      r := r + [TaskWithChildren(rows[i], children)];
    }
    RowsListSectionTasks(tasks, sectionId, rows, r);
  }

  /** The sorted open rows of a section, each paired with its children, are
      what `readOne` lists for the section. */
  lemma RowsListSectionTasks(tasks: map<Id, Task>, sectionId: Id, rows: seq<Task>, r: seq<TaskWithChildren>)
    requires Distinct(rows)
    requires forall i | 0 <= i < |rows| :: rows[i] in OpenRowsIn(tasks, sectionId)
    requires forall x | x in OpenRowsIn(tasks, sectionId) :: x in rows
    requires forall i, j | 0 <= i < j < |rows| :: TaskPosition(rows[i]) <= TaskPosition(rows[j])
    requires |r| == |rows|
    requires forall j | 0 <= j < |r| :: r[j].task == rows[j] && ListsChildren(tasks, rows[j].id, r[j].children)
    ensures ListsSectionTasks(tasks, sectionId, r)
  {
    OpenRowsListed(tasks, sectionId, rows);
    forall t | t in tasks.Values && t.sectionId == sectionId && !t.complete ensures exists i | 0 <= i < |r| :: r[i].task == t {
      var i :| 0 <= i < |rows| && rows[i] == t;
      assert r[i].task == t;
    }
  }

  /** The rows of section `sectionId` that are not complete. */
  function OpenRowsIn(tasks: map<Id, Task>, sectionId: Id): set<Task>
  {
    set k | k in tasks && tasks[k].sectionId == sectionId && !tasks[k].complete :: tasks[k]
  }

  lemma OpenRowsListed(tasks: map<Id, Task>, sectionId: Id, rows: seq<Task>)
    requires forall i | 0 <= i < |rows| :: rows[i] in OpenRowsIn(tasks, sectionId)
    requires forall x | x in OpenRowsIn(tasks, sectionId) :: x in rows
    ensures forall i | 0 <= i < |rows| :: rows[i] in tasks.Values && rows[i].sectionId == sectionId && !rows[i].complete
    ensures forall t | t in tasks.Values && t.sectionId == sectionId && !t.complete :: exists i | 0 <= i < |rows| :: rows[i] == t
  {
    forall i | 0 <= i < |rows| ensures rows[i] in tasks.Values && rows[i].sectionId == sectionId && !rows[i].complete {
      assert rows[i] in OpenRowsIn(tasks, sectionId);
      var k :| k in tasks && tasks[k].sectionId == sectionId && !tasks[k].complete && tasks[k] == rows[i];
    }
    forall t | t in tasks.Values && t.sectionId == sectionId && !t.complete ensures exists i | 0 <= i < |rows| :: rows[i] == t {
      var k :| k in tasks && tasks[k] == t;
      assert t in OpenRowsIn(tasks, sectionId);
      assert t in rows;
    }
  }

  /** The sections of collection `id`, by position, with their tasks. */
  method SectionDetails(db: Store, id: Id) returns (ds: seq<SectionDetail>)
    requires db.Valid()
    ensures ListsSections(db.sections, db.tasks, id, ds)
  {
    var sections := db.sections;
    var rows := SortByPosition(SectionRowsOf(sections, id), SectionPosition);
    ds := [];
    for i := 0 to |rows|
      invariant |ds| == i
      invariant forall j | 0 <= j < i :: ds[j].id == rows[j].id && ds[j].name == rows[j].name && ds[j].position == rows[j].position
      invariant forall j | 0 <= j < i :: ds[j].count == |TaskRouter.TasksInSection(db.tasks, ds[j].id)|
      invariant forall j | 0 <= j < i :: ListsSectionTasks(db.tasks, ds[j].id, ds[j].tasks)
    {
      var ts := SectionTasks(db, rows[i].id);
      ds := ds + [SectionDetail(rows[i].id, rows[i].name, rows[i].position, |TaskRouter.TasksInSection(db.tasks, rows[i].id)|, ts)];
    }
    SectionRowsListed(sections, id, rows, ds);
  }

  /** The section rows of collection `id`. */
  function SectionRowsOf(sections: map<Id, Section>, id: Id): set<Section>
  {
    set k | k in sections && sections[k].collectionId == id :: sections[k]
  }

  lemma RowOfSection(sections: map<Id, Section>, id: Id, x: Section)
    requires Keyed(sections, SectionId) && x in SectionRowsOf(sections, id)
    ensures x.id in SectionsOf(sections, id) && sections[x.id] == x
  {
    var k :| k in sections && sections[k].collectionId == id && sections[k] == x;
  }

  /** The section rows of collection `id`, read back by id. */
  lemma SectionRowsListed(sections: map<Id, Section>, id: Id, rows: seq<Section>, ds: seq<SectionDetail>)
    requires Keyed(sections, SectionId)
    requires Distinct(rows) && |ds| == |rows|
    requires forall i | 0 <= i < |rows| :: rows[i] in SectionRowsOf(sections, id)
    requires forall k | k in sections && sections[k].collectionId == id :: sections[k] in rows
    requires forall j | 0 <= j < |ds| :: ds[j].id == rows[j].id && ds[j].name == rows[j].name && ds[j].position == rows[j].position
    ensures forall i | 0 <= i < |ds| ::
      ds[i].id in SectionsOf(sections, id) && ds[i].name == sections[ds[i].id].name && ds[i].position == sections[ds[i].id].position
    ensures forall i, j | 0 <= i < j < |ds| :: ds[i].id != ds[j].id
    ensures forall k | k in SectionsOf(sections, id) :: exists i | 0 <= i < |ds| :: ds[i].id == k
  {
    forall i | 0 <= i < |ds|
      ensures ds[i].id in SectionsOf(sections, id) && ds[i].name == sections[ds[i].id].name && ds[i].position == sections[ds[i].id].position
    {
      RowOfSection(sections, id, rows[i]);
    }
    forall i, j | 0 <= i < j < |ds| ensures ds[i].id != ds[j].id {
      RowOfSection(sections, id, rows[i]);
      RowOfSection(sections, id, rows[j]);
    }
    forall k | k in SectionsOf(sections, id) ensures exists i | 0 <= i < |ds| :: ds[i].id == k {
      assert sections[k] in SectionRowsOf(sections, id);
      assert sections[k] in rows;
      var i :| 0 <= i < |rows| && rows[i] == sections[k];
      assert ds[i].id == k;
    }
  }

  /** `collection.readOne`: `None` when no collection has the id. */
  method ReadOne(db: Store, id: Id) returns (r: Result<Option<CollectionDetail>>)
    requires db.Valid()
    ensures id == [] ==> r == Err(Invalid)
    ensures id != [] && id !in db.collections ==> r == Ok(None)
    ensures id != [] && id in db.collections ==>
      && r.Ok? && r.value.Some?
      && r.value.value.id == id && r.value.value.name == db.collections[id].name
      && ListsSections(db.sections, db.tasks, id, r.value.value.sections)
  {
    if id == [] {
      return Err(Invalid);
    }
    if id !in db.collections {
      return Ok(None);
    }
    var ds := SectionDetails(db, id);
    r := Ok(Some(CollectionDetail(id, db.collections[id].name, ds)));
  }

  // ------------------------------------------------------------------ inbox

  /** Some collection is named `Inbox`. */
  predicate HasInbox(collections: map<Id, Collection>)
  {
    exists k | k in collections :: collections[k].name == InboxName
  }

  /** `collection.inbox`: some collection named `Inbox`, with each section's
      `_count.tasks` and open top-level tasks and the collection's `taskCount`.
      `None` stands for the reply `{ taskCount: undefined }` when there is none. */
  method Inbox(db: Store) returns (r: Option<CollectionSummary>)
    requires db.Valid()
    ensures r.None? <==> !HasInbox(db.collections)
    ensures r.Some? ==> r.value.id in db.collections
    ensures r.Some? ==> db.collections[r.value.id].name == InboxName && SummarizesCollection(db, r.value, true)
  {
    if !HasInbox(db.collections) {
      return None;
    }
    var k :| k in db.collections && db.collections[k].name == InboxName;
    var c := SummarizeCollection(db, k, true);
    r := Some(c);
  }

  // ----------------------------------------------------------------- create

  /** The row `create` stores: after every existing collection, no parent. */
  function NewCollection(collections: map<Id, Collection>, name: string, id: Id): Collection
  {
    Collection(id, name, |collections| + 1, None)
  }

  /** The section every new collection starts with. */
  function DefaultSection(sectionId: Id, collectionId: Id): Section
  {
    Section(sectionId, UncategorizedName, 0, collectionId)
  }

  /** `collection.create`. `id` and `sectionId` are the fresh ids the store generates. */
  method Create(db: Store, name: string, id: Id, sectionId: Id) returns (r: Result<Collection>)
    requires db.Valid() && id !in db.collections && sectionId !in db.sections
    modifies db
    ensures db.Valid()
    ensures name == [] ==> r == Err(Invalid) && db.collections == old(db.collections) && db.sections == old(db.sections)
    ensures name != [] ==> r == Ok(NewCollection(old(db.collections), name, id))
    ensures r.Ok? ==> db.collections == old(db.collections)[id := r.value]
    ensures r.Ok? ==> db.sections == old(db.sections)[sectionId := DefaultSection(sectionId, id)]
    ensures db.tasks == old(db.tasks) && db.checklistItems == old(db.checklistItems) && db.comments == old(db.comments)
  {
    if name == [] {
      return Err(Invalid);
    }
    var c := Collection(id, name, |db.collections| + 1, None);
    db.collections := db.collections[id := c];
    db.sections := db.sections[sectionId := Section(sectionId, UncategorizedName, 0, id)];
    r := Ok(c);
  }

  /** A new collection has exactly one section, `Uncategorized` at position 0,
      and its own position is the number of collections stored before it, plus one. */
  lemma CreateGivesOneSection(collections: map<Id, Collection>, sections: map<Id, Section>, name: string, id: Id, sectionId: Id)
    requires sectionId !in sections
    requires forall k | k in sections :: sections[k].collectionId != id
    ensures var after := sections[sectionId := DefaultSection(sectionId, id)];
      && SectionsOf(after, id) == {sectionId}
      && after[sectionId].name == UncategorizedName && after[sectionId].position == 0
    ensures NewCollection(collections, name, id).position == |collections| + 1 > 0
  {
  }

  /** The position is a count, not a maximum: after a delete, a new collection
      can take the position of one still stored. */
  lemma CreateAfterDeleteRepeatsPosition()
    ensures var collections := map["a" := Collection("a", "A", 0, None), "d" := Collection("d", "D", 3, None)];
      NewCollection(collections, "N", "n").position == collections["d"].position
  {
    var collections := map["a" := Collection("a", "A", 0, None), "d" := Collection("d", "D", 3, None)];
    assert collections.Keys == {"a", "d"};
  }

  // ----------------------------------------------------------------- update

  datatype CollectionUpdate = CollectionUpdate(id: Id, name: string, parentId: Nullish<Id>, position: int)

  /** An `update` request as it arrives, before validation: any field may be missing. */
  datatype UpdateRequest = UpdateRequest(id: Option<string>, name: Option<string>, parentId: Nullish<Id>, position: Option<int>)

  /** The input schema of `update`: `id` and `name` present and non-empty and
      `position` present; `parentId` may be left out or null. */
  function ParseUpdate(q: UpdateRequest): (r: Result<CollectionUpdate>)
    ensures r.Ok? <==> q.id.Some? && q.id.value != [] && q.name.Some? && q.name.value != [] && q.position.Some?
    ensures r.Err? ==> r.error == Invalid
    ensures r.Ok? ==> r.value == CollectionUpdate(q.id.value, q.name.value, q.parentId, q.position.value)
  {
    if q.id.Some? && q.id.value != [] && q.name.Some? && q.name.value != [] && q.position.Some?
    then Ok(CollectionUpdate(q.id.value, q.name.value, q.parentId, q.position.value))
    else Err(Invalid)
  }

  /** The row `update` leaves: name and position written, parent as sent. */
  function UpdatedCollection(c: Collection, u: CollectionUpdate): (r: Collection)
    ensures r.id == c.id && r.name == u.name && r.position == u.position
    ensures r.parentId == Overwrite(u.parentId, c.parentId)
  {
    c.(name := u.name, parentId := Overwrite(u.parentId, c.parentId), position := u.position)
  }

  /** `collection.update`. */
  method Update(db: Store, u: CollectionUpdate) returns (r: Result<Collection>)
    requires db.Valid()
    modifies db
    ensures db.Valid()
    ensures u.id == [] || u.name == [] ==> r == Err(Invalid)
    ensures u.id != [] && u.name != [] && u.id !in old(db.collections) ==> r == Err(NotFound)
    ensures r.Err? ==> db.collections == old(db.collections)
    ensures u.id != [] && u.name != [] && u.id in old(db.collections) ==>
      r == Ok(UpdatedCollection(old(db.collections)[u.id], u)) && db.collections == old(db.collections)[u.id := r.value]
    ensures db.sections == old(db.sections) && db.tasks == old(db.tasks)
    ensures db.checklistItems == old(db.checklistItems) && db.comments == old(db.comments)
  {
    if u.id == [] || u.name == [] {
      return Err(Invalid);
    }
    if u.id !in db.collections {
      return Err(NotFound);
    }
    var c := UpdatedCollection(db.collections[u.id], u);
    db.collections := db.collections[u.id := c];
    r := Ok(c);
  }

  // ----------------------------------------------------------------- delete

  /** `collection.delete`: removes the one row; what the schema cascades is not modelled. */
  method Delete(db: Store, id: Id) returns (r: Result<Collection>)
    requires db.Valid()
    modifies db
    ensures db.Valid()
    ensures id in old(db.collections) ==> r == Ok(old(db.collections)[id]) && db.collections == old(db.collections) - {id}
    ensures id !in old(db.collections) ==> r == Err(NotFound) && db.collections == old(db.collections)
    ensures db.sections == old(db.sections) && db.tasks == old(db.tasks)
    ensures db.checklistItems == old(db.checklistItems) && db.comments == old(db.comments)
  {
    if id !in db.collections {
      return Err(NotFound);
    }
    r := Ok(db.collections[id]);
    db.collections := db.collections - {id};
  }

  // ---------------------------------------------------------------- reorder

  datatype CollectionMove = CollectionMove(id: Id, position: int)

  function MoveId(m: CollectionMove): Id { m.id }

  function MoveCollection(c: Collection, m: CollectionMove): Collection
  {
    c.(position := m.position)
  }

  predicate MovesValid(moves: seq<CollectionMove>)
  {
    forall i | 0 <= i < |moves| :: moves[i].id != []
  }

  /** What a committed `reorder` batch leaves in the collection table. */
  function ReorderCollections(collections: map<Id, Collection>, moves: seq<CollectionMove>): Option<map<Id, Collection>>
  {
    ApplyAll(collections, moves, MoveId, MoveCollection)
  }

  /** `collection.reorder`: one position update per entry, in one transaction. */
  method Reorder(db: Store, moves: seq<CollectionMove>) returns (r: Result<()>)
    requires db.Valid()
    modifies db
    ensures db.Valid()
    ensures !MovesValid(moves) ==> r == Err(Invalid)
    ensures MovesValid(moves) && ReorderCollections(old(db.collections), moves).None? ==> r == Err(NotFound)
    ensures r.Ok? <==> MovesValid(moves) && ReorderCollections(old(db.collections), moves).Some?
    ensures r.Ok? ==> db.collections == ReorderCollections(old(db.collections), moves).value
    ensures r.Err? ==> db.collections == old(db.collections)
    ensures db.sections == old(db.sections) && db.tasks == old(db.tasks)
    ensures db.checklistItems == old(db.checklistItems) && db.comments == old(db.comments)
  {
    if exists i | 0 <= i < |moves| :: moves[i].id == [] {
      return Err(Invalid);
    }
    var tx := db.collections;
    for i := 0 to |moves|
      invariant ReorderCollections(db.collections, moves[..i]) == Some(tx)
      invariant Keyed(tx, CollectionId)
      invariant db.collections == old(db.collections)
    {
      var m := moves[i];
      assert moves[..i + 1][..i] == moves[..i];
      if m.id !in tx {
        PrefixFailureAborts(db.collections, moves, i + 1, MoveId, MoveCollection);
        return Err(NotFound);
      }
      tx := tx[m.id := MoveCollection(tx[m.id], m)];
    }
    assert moves[..|moves|] == moves;
    db.collections := tx;
    r := Ok(());
  }

  lemma MoveCollectionOverwrites()
    ensures Overwriting(MoveCollection)
  {
  }

  /** A committed batch: a listed collection has the position of its last
      entry and its other fields as before; an unlisted one is unchanged. */
  lemma ReorderCollectionsAt(collections: map<Id, Collection>, moves: seq<CollectionMove>, k: Id)
    requires ReorderCollections(collections, moves).Some? && k in collections
    ensures ReorderCollections(collections, moves).value.Keys == collections.Keys
    ensures var j := LastEntry(moves, MoveId, k);
      ReorderCollections(collections, moves).value[k] ==
        if j < 0 then collections[k] else collections[k].(position := moves[j].position)
  {
    ApplyAllKeys(collections, moves, MoveId, MoveCollection);
    MoveCollectionOverwrites();
    ApplyAllAt(collections, moves, MoveId, MoveCollection, k);
  }

  /** A batch commits exactly when every listed collection exists. */
  lemma ReorderCollectionsSucceedsIff(collections: map<Id, Collection>, moves: seq<CollectionMove>)
    ensures ReorderCollections(collections, moves).Some? <==> forall i | 0 <= i < |moves| :: moves[i].id in collections
  {
    ApplyAllSucceedsIff(collections, moves, MoveId, MoveCollection);
  }

  // -------------------------------------------------- initializeCollections

  /** The collection and section tables after the bootstrap: unchanged when an
      Inbox exists, else with Inbox at position 0 and its `Uncategorized` section. */
  function Bootstrap(collections: map<Id, Collection>, sections: map<Id, Section>, inboxId: Id, sectionId: Id): (map<Id, Collection>, map<Id, Section>)
  {
    if HasInbox(collections) then (collections, sections)
    else (collections[inboxId := Collection(inboxId, InboxName, 0, None)], sections[sectionId := DefaultSection(sectionId, inboxId)])
  }

  datatype Reply = Reply(success: bool, message: string)

  /** `collection.initializeCollections`. `inboxId` and `sectionId` are the fresh
      ids the store would generate. */
  method InitializeCollections(db: Store, inboxId: Id, sectionId: Id) returns (r: Reply)
    requires db.Valid() && inboxId !in db.collections && sectionId !in db.sections
    modifies db
    ensures db.Valid()
    ensures r == Reply(true, "Default collections created.")
    ensures (db.collections, db.sections) == Bootstrap(old(db.collections), old(db.sections), inboxId, sectionId)
    ensures db.tasks == old(db.tasks) && db.checklistItems == old(db.checklistItems) && db.comments == old(db.comments)
  {
    if !HasInbox(db.collections) {
      db.collections := db.collections[inboxId := Collection(inboxId, InboxName, 0, None)];
      db.sections := db.sections[sectionId := DefaultSection(sectionId, inboxId)];
    }
    r := Reply(true, "Default collections created.");
  }

  /** After the bootstrap an Inbox exists, and what was stored before is kept. */
  lemma BootstrapProvidesInbox(collections: map<Id, Collection>, sections: map<Id, Section>, inboxId: Id, sectionId: Id)
    requires inboxId !in collections && sectionId !in sections
    ensures HasInbox(Bootstrap(collections, sections, inboxId, sectionId).0)
    ensures forall k | k in collections ::
      k in Bootstrap(collections, sections, inboxId, sectionId).0 && Bootstrap(collections, sections, inboxId, sectionId).0[k] == collections[k]
    ensures forall k | k in sections ::
      k in Bootstrap(collections, sections, inboxId, sectionId).1 && Bootstrap(collections, sections, inboxId, sectionId).1[k] == sections[k]
  {
    if !HasInbox(collections) {
      var after := Bootstrap(collections, sections, inboxId, sectionId).0;
      assert after[inboxId].name == InboxName;
    }
  }

  /** A second bootstrap, with any fresh ids, changes nothing. */
  lemma BootstrapIdempotent(collections: map<Id, Collection>, sections: map<Id, Section>, inboxId: Id, sectionId: Id, inboxId2: Id, sectionId2: Id)
    requires inboxId !in collections && sectionId !in sections
    ensures var (cs, ss) := Bootstrap(collections, sections, inboxId, sectionId);
      Bootstrap(cs, ss, inboxId2, sectionId2) == (cs, ss)
  {
    BootstrapProvidesInbox(collections, sections, inboxId, sectionId);
  }

  /** On an empty store the bootstrap puts Inbox at 0, so the first collection
      a user creates gets position 2 and position 1 stays unused. */
  lemma FirstUserCollectionPosition(inboxId: Id, sectionId: Id, name: string, id: Id)
    requires id != inboxId
    ensures var (cs, _) := Bootstrap(map[], map[], inboxId, sectionId);
      && cs[inboxId].position == 0
      && NewCollection(cs, name, id).position == 2
  {
    var (cs, _) := Bootstrap(map[], map[], inboxId, sectionId);
    assert !HasInbox(map[]);
    assert cs.Keys == {inboxId};
  }
}
