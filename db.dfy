/** The store the procedures share (`ctx.db`): one table per entity, each a map
    from row id to row. */
module Db {
  import opened Common

  class Store {
    var collections: map<Id, Collection>
    var sections: map<Id, Section>
    var tasks: map<Id, Task>
    var checklistItems: map<Id, ChecklistItem>
    var comments: map<Id, Comment>

    /** Every row is stored under its own id. */
    ghost predicate Valid()
      reads this
    {
      && Keyed(collections, CollectionId)
      && Keyed(sections, SectionId)
      && Keyed(tasks, TaskId)
      && Keyed(checklistItems, ChecklistItemId)
      && Keyed(comments, CommentId)
    }

    constructor ()
      ensures Valid()
      ensures collections == map[] && sections == map[] && tasks == map[]
      ensures checklistItems == map[] && comments == map[]
    {
      collections, sections, tasks := map[], map[], map[];
      checklistItems, comments := map[], map[];
    }
  }
}
