/** The `section` procedures: `create`, positioned after the collection's
    existing sections, and `delete`. The router exposes no `update` and no
    `reoder`: both are commented out (section.ts:60-78, 92-107). */
module SectionRouter {
  import opened Common
  import opened Db
  import CollectionRouter

  /** `name` and `collectionId` must be non-empty. */
  predicate CreateInputValid(name: string, collectionId: Id)
  {
    name != [] && collectionId != []
  }

  /** `sections?._count.sections ?? 0`: the collection's section count, or 0
      when no collection has the id. */
  function NewSectionPosition(collections: map<Id, Collection>, sections: map<Id, Section>, collectionId: Id): nat
  {
    if collectionId in collections then |CollectionRouter.SectionsOf(sections, collectionId)| else 0
  }

  /** `section.create`. `id` is the fresh id the store generates. */
  method Create(db: Store, name: string, collectionId: Id, id: Id) returns (r: Result<Section>)
    requires db.Valid() && id !in db.sections
    modifies db
    ensures db.Valid()
    ensures r.Ok? <==> CreateInputValid(name, collectionId)
    ensures r.Err? ==> r.error == Invalid && db.sections == old(db.sections)
    ensures r.Ok? ==> r.value == Section(id, name, NewSectionPosition(old(db.collections), old(db.sections), collectionId), collectionId)
    ensures r.Ok? ==> db.sections == old(db.sections)[id := r.value]
    ensures db.collections == old(db.collections) && db.tasks == old(db.tasks)
    ensures db.checklistItems == old(db.checklistItems) && db.comments == old(db.comments)
  {
    if !CreateInputValid(name, collectionId) {
      return Err(Invalid);
    }
    var position := if collectionId in db.collections then |CollectionRouter.SectionsOf(db.sections, collectionId)| else 0;
    var s := Section(id, name, position, collectionId);
    db.sections := db.sections[id := s];
    r := Ok(s);
  }

  /** A new section joins exactly its own collection: that collection gains it,
      every other collection keeps its sections. */
  lemma CreateJoinsCollection(sections: map<Id, Section>, s: Section, c: Id)
    requires s.id !in sections
    ensures CollectionRouter.SectionsOf(sections[s.id := s], c) ==
      CollectionRouter.SectionsOf(sections, c) + (if c == s.collectionId then {s.id} else {})
  {
  }

  /** Sections created one after the other in an existing collection get
      consecutive positions, starting from the number it already had. */
  lemma ConsecutiveSectionPositions(collections: map<Id, Collection>, sections: map<Id, Section>, s: Section, collectionId: Id)
    requires s.id !in sections && collectionId in collections
    requires s == Section(s.id, s.name, NewSectionPosition(collections, sections, collectionId), collectionId)
    ensures NewSectionPosition(collections, sections[s.id := s], collectionId) == s.position + 1
  {
    CreateJoinsCollection(sections, s, collectionId);
    assert s.id !in CollectionRouter.SectionsOf(sections, collectionId);
  }

  /** `section.delete`: removes the one row; what the schema cascades is not modelled. */
  method Delete(db: Store, id: Id) returns (r: Result<Section>)
    requires db.Valid()
    modifies db
    ensures db.Valid()
    ensures id in old(db.sections) ==> r == Ok(old(db.sections)[id]) && db.sections == old(db.sections) - {id}
    ensures id !in old(db.sections) ==> r == Err(NotFound) && db.sections == old(db.sections)
    ensures db.collections == old(db.collections) && db.tasks == old(db.tasks)
    ensures db.checklistItems == old(db.checklistItems) && db.comments == old(db.comments)
  {
    if id !in db.sections {
      return Err(NotFound);
    }
    r := Ok(db.sections[id]);
    db.sections := db.sections - {id};
  }
}
