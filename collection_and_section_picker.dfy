/** The collection-and-section picker (`CollectionSectionPicker`): the Inbox
    pair it derives from the collections `readAll` returns (and the errors it
    throws without one), the default selection for the current collection and
    section, and its menu. The selection itself belongs to the component that
    renders the picker; it is a field here. */
module CollectionAndSectionPicker {
  import opened Common
  import opened Seqs
  import opened CollectionRouter
  import SectionPicker

  /** `{label, collectionId, sectionId}`. */
  datatype Selection = Selection(title: SectionPicker.PickerLabel, collectionId: Id, sectionId: Id)

  /** `(c) => c.id === id`. */
  function CollectionIdIs(id: Id): CollectionSummary -> bool
  {
    (c: CollectionSummary) => c.id == id
  }

  /** The first effect: the Inbox pair, the first collection named Inbox with
      its first Uncategorized section; an error when the collections are not
      loaded yet, when no collection is named Inbox, or when the Inbox has no
      Uncategorized section. */
  function InboxPair(collections: Option<seq<CollectionSummary>>): (r: Result<Selection>)
    ensures r.Err? ==> r.error == NotFound
    ensures collections.None? ==> r.Err?
    ensures collections.Some? ==>
      var cs := collections.value;
      var i := FirstIndex(cs, SectionPicker.IsInboxCollection);
      (r.Ok? <==> i >= 0 && exists j | 0 <= j < |cs[i].sections| :: SectionPicker.IsUncategorized(cs[i].sections[j]))
    ensures r.Ok? ==> r.value.title == SectionPicker.InboxLabel
    ensures r.Ok? ==> exists i, j | 0 <= i < |collections.value| && 0 <= j < |collections.value[i].sections| ::
      && SectionPicker.IsInboxCollection(collections.value[i]) && collections.value[i].id == r.value.collectionId
      && SectionPicker.IsUncategorized(collections.value[i].sections[j]) && collections.value[i].sections[j].id == r.value.sectionId
  {
    if collections.None? then Err(NotFound)
    else
      match Find(collections.value, SectionPicker.IsInboxCollection)
      case None => Err(NotFound)
      case Some(c) =>
        match Find(c.sections, SectionPicker.IsUncategorized)
        case None => Err(NotFound)
        case Some(s) => Ok(Selection(SectionPicker.InboxLabel, c.id, s.id))
  }

  /** The two pickers agree on the Inbox: this one finds a pair exactly when
      the section picker finds its Inbox choice, and for the same section. */
  lemma InboxAgreesWithSectionPicker(cs: seq<CollectionSummary>)
    ensures InboxPair(Some(cs)).Ok? <==> SectionPicker.InboxOf(cs).Some?
    ensures InboxPair(Some(cs)).Ok? ==> InboxPair(Some(cs)).value.sectionId == SectionPicker.InboxOf(cs).value.value
  {
  }

  /** What the second effect sets the selection to, or `None` when it leaves it
      as it was. In a collection other than the Inbox the current section is
      looked up, and its label always names the section. Otherwise the Inbox
      pair is chosen, once there is one. */
  function Default(currentCollectionId: Id, currentSectionId: Id, collections: Option<seq<CollectionSummary>>,
                   inbox: Option<Selection>): Option<Selection>
  {
    var found := if collections.Some? then Find(collections.value, CollectionIdIs(currentCollectionId)) else None;
    if found.Some? && !SectionPicker.IsInboxCollection(found.value) then
      match Find(found.value.sections, SectionPicker.IdIs(currentSectionId))
      case None => None
      case Some(s) => Some(Selection(SectionPicker.CollectionLabel(found.value.name, Some(s.name)), found.value.id, s.id))
    else inbox
  }

  /** No collection id occurs twice, as in any `readAll` result. */
  predicate UniqueCollectionIds(cs: seq<CollectionSummary>)
  {
    forall i, j | 0 <= i < j < |cs| :: cs[i].id != cs[j].id
  }

  /** In a loaded collection other than the Inbox that holds the current
      section, the selection becomes that collection and that section,
      labelled with both names. */
  lemma DefaultsToCurrentSection(cs: seq<CollectionSummary>, inbox: Option<Selection>, i: int, a: int)
    requires UniqueCollectionIds(cs) && SectionPicker.UniqueSectionIds(cs)
    requires 0 <= i < |cs| && !SectionPicker.IsInboxCollection(cs[i]) && 0 <= a < |cs[i].sections|
    ensures Default(cs[i].id, cs[i].sections[a].id, Some(cs), inbox) ==
      Some(Selection(SectionPicker.CollectionLabel(cs[i].name, Some(cs[i].sections[a].name)), cs[i].id, cs[i].sections[a].id))
  {
    var k := FirstIndex(cs, CollectionIdIs(cs[i].id));
    assert CollectionIdIs(cs[i].id)(cs[i]);
    assert k >= 0 && CollectionIdIs(cs[i].id)(cs[k]);
    assert k == i by {
      assert cs[k].id == cs[i].id;
      assert !(k < i) && !(i < k);
    }
    var b := FirstIndex(cs[i].sections, SectionPicker.IdIs(cs[i].sections[a].id));
    assert SectionPicker.IdIs(cs[i].sections[a].id)(cs[i].sections[a]);
    assert b >= 0 && SectionPicker.IdIs(cs[i].sections[a].id)(cs[i].sections[b]);
    assert cs[i].sections[b].id == cs[i].sections[a].id;
  }

  /** A collection other than the Inbox that does not hold the current section
      leaves the selection as it was. */
  lemma MissingSectionLeavesSelection(cs: seq<CollectionSummary>, inbox: Option<Selection>, i: int, sectionId: Id)
    requires UniqueCollectionIds(cs)
    requires 0 <= i < |cs| && !SectionPicker.IsInboxCollection(cs[i])
    requires forall a | 0 <= a < |cs[i].sections| :: cs[i].sections[a].id != sectionId
    ensures Default(cs[i].id, sectionId, Some(cs), inbox).None?
  {
    var k := FirstIndex(cs, CollectionIdIs(cs[i].id));
    assert CollectionIdIs(cs[i].id)(cs[i]);
    assert k >= 0 && CollectionIdIs(cs[i].id)(cs[k]);
    assert k == i by {
      assert cs[k].id == cs[i].id;
      assert !(k < i) && !(i < k);
    }
    assert forall a | 0 <= a < |cs[i].sections| :: !SectionPicker.IdIs(sectionId)(cs[i].sections[a]);
  }

  /** When the current collection is not loaded, or is the Inbox, the selection
      becomes the Inbox pair, and stays as it was while there is none. */
  lemma OtherwiseInbox(currentCollectionId: Id, sectionId: Id, collections: Option<seq<CollectionSummary>>, inbox: Option<Selection>)
    requires collections.Some? ==>
      var k := FirstIndex(collections.value, CollectionIdIs(currentCollectionId));
      k < 0 || SectionPicker.IsInboxCollection(collections.value[k])
    ensures Default(currentCollectionId, sectionId, collections, inbox) == inbox
  {
  }

  /** The menu: the Inbox pair first, when there is one, then one entry per
      section of every collection not named Inbox. */
  function Menu(inbox: Option<Selection>, collections: Option<seq<CollectionSummary>>): seq<Selection>
  {
    var es := if collections.Some? then SectionPicker.Entries(collections.value) else [];
    (if inbox.Some? then [inbox.value] else [])
    + seq(|es|, k requires 0 <= k < |es| => Selection(SectionPicker.SectionLabel(es[k].0, es[k].1), es[k].0.id, es[k].1.id))
  }

  /** The menu offers the Inbox once, first, and otherwise only sections of
      collections not named Inbox, each with its own collection. */
  lemma MenuListsInboxOnce(cs: seq<CollectionSummary>)
    ensures var inbox := InboxPair(Some(cs));
      var m := Menu(if inbox.Ok? then Some(inbox.value) else None, Some(cs));
      && (forall k | 0 <= k < |m| :: m[k].title == SectionPicker.InboxLabel <==> k == 0 && inbox.Ok?)
      && forall k | 0 <= k < |m| && m[k].title != SectionPicker.InboxLabel ::
           exists i, a | 0 <= i < |cs| && 0 <= a < |cs[i].sections| ::
             && !SectionPicker.IsInboxCollection(cs[i])
             && cs[i].id == m[k].collectionId && cs[i].sections[a].id == m[k].sectionId
  {
    var inbox := InboxPair(Some(cs));
    var m := Menu(if inbox.Ok? then Some(inbox.value) else None, Some(cs));
    var es := SectionPicker.Entries(cs);
    var off := if inbox.Ok? then 1 else 0;
    forall k | off <= k < |m|
      ensures m[k].title != SectionPicker.InboxLabel
      ensures exists i, a | 0 <= i < |cs| && 0 <= a < |cs[i].sections| ::
             && !SectionPicker.IsInboxCollection(cs[i])
             && cs[i].id == m[k].collectionId && cs[i].sections[a].id == m[k].sectionId
    {
      var e := es[k - off];
      assert m[k] == Selection(SectionPicker.SectionLabel(e.0, e.1), e.0.id, e.1.id);
      SectionPicker.EntriesMembers(cs, e);
      var i :| 0 <= i < |cs| && cs[i] == e.0;
      var a :| 0 <= a < |cs[i].sections| && cs[i].sections[a] == e.1;
    }
  }

  class CollectionSectionPicker {
    var inbox: Option<Selection>
    var selected: Option<Selection>

    constructor (selected: Option<Selection>)
      ensures inbox == None && this.selected == selected
    {
      inbox := None;
      this.selected := selected;
    }

    /** The first effect, run whenever the collections change: the Inbox pair
        replaces the stored one, or the error is thrown and nothing changes. */
    method DiscoverInbox(collections: Option<seq<CollectionSummary>>) returns (r: Result<Selection>)
      modifies this
      ensures r == InboxPair(collections)
      ensures inbox == if r.Ok? then Some(r.value) else old(inbox)
      ensures selected == old(selected)
    {
      if collections.None? {
        return Err(NotFound);
      }
      var c := Find(collections.value, SectionPicker.IsInboxCollection);
      if c.None? {
        return Err(NotFound);
      }
      var s := Find(c.value.sections, SectionPicker.IsUncategorized);
      if s.None? {
        return Err(NotFound);
      }
      r := Ok(Selection(SectionPicker.InboxLabel, c.value.id, s.value.id));
      inbox := Some(r.value);
    }

    /** The second effect, for the current collection and section. */
    method SelectDefault(currentCollectionId: Id, currentSectionId: Id, collections: Option<seq<CollectionSummary>>)
      modifies this
      ensures selected == (var d := Default(currentCollectionId, currentSectionId, collections, old(inbox));
        if d.Some? then d else old(selected))
      ensures inbox == old(inbox)
    {
      var found := None;
      if collections.Some? {
        found := Find(collections.value, CollectionIdIs(currentCollectionId));
      }
      if found.Some? && !SectionPicker.IsInboxCollection(found.value) {
        var section := Find(found.value.sections, SectionPicker.IdIs(currentSectionId));
        if section.Some? {
          selected := Some(Selection(SectionPicker.CollectionLabel(found.value.name, Some(section.value.name)),
            found.value.id, section.value.id));
        }
      } else if inbox.Some? {
        selected := inbox;
      }
    }

    /** A click on a menu entry. */
    method Pick(s: Selection)
      modifies this
      ensures selected == Some(s) && inbox == old(inbox)
    {
      selected := Some(s);
    }
  }
}
