/** The section picker (`SectionPicker`): the Inbox choice it discovers in the
    collections `readAll` returns, the rule that turns the incoming section id
    into the shown choice, the id it reports back through `setValue`, and its
    menu. */
module SectionPicker {
  import opened Common
  import opened Seqs
  import opened Db
  import opened CollectionRouter
  import TaskRouter
  import TaskListRow

  /** What a choice shows: the Inbox, or `# collection`, followed by the
      section's name unless the section is the Uncategorized one. */
  datatype PickerLabel = InboxLabel | CollectionLabel(collection: string, section: Option<string>)

  /** `{label, value}`: how a choice is shown and the id of its section. */
  datatype Choice = Choice(title: PickerLabel, value: Id)

  /** The value that stands for the Today page, which has no section of its own. */
  const TodayValue: string := "today"

  predicate IsInboxCollection(c: CollectionSummary) { c.name == InboxName }

  predicate IsUncategorized(s: SectionSummary) { s.name == UncategorizedName }

  /** `(s) => s.id === value`. */
  function IdIs(v: Id): SectionSummary -> bool
  {
    (s: SectionSummary) => s.id == v
  }

  /** The Inbox choice: the first `Uncategorized` section of the first
      collection named Inbox, if both exist. */
  function InboxOf(cs: seq<CollectionSummary>): (r: Option<Choice>)
    ensures r.Some? ==> r.value.title == InboxLabel
    ensures var i := FirstIndex(cs, IsInboxCollection);
      r.Some? <==> i >= 0 && exists j | 0 <= j < |cs[i].sections| :: IsUncategorized(cs[i].sections[j])
    ensures r.Some? ==> exists i, j | 0 <= i < |cs| && 0 <= j < |cs[i].sections| ::
      IsInboxCollection(cs[i]) && IsUncategorized(cs[i].sections[j]) && r.value.value == cs[i].sections[j].id
  {
    match Find(cs, IsInboxCollection)
    case None => None
    case Some(c) =>
      match Find(c.sections, IsUncategorized)
      case None => None
      case Some(s) => Some(Choice(InboxLabel, s.id))
  }

  /** The label of a section of a collection other than the Inbox. */
  function SectionLabel(c: CollectionSummary, s: SectionSummary): (l: PickerLabel)
    ensures l.CollectionLabel? && l.collection == c.name
    ensures l.section.None? <==> IsUncategorized(s)
    ensures l.section.Some? ==> l.section.value == s.name
  {
    CollectionLabel(c.name, if IsUncategorized(s) then None else Some(s.name))
  }

  /** The index of the collection the `forEach` settles on for `v`: it does not
      stop at a match, so the last collection holding a section with id `v`
      wins; -1 when none does. */
  function LastContaining(cs: seq<CollectionSummary>, v: Id): (i: int)
    ensures -1 <= i < |cs|
    ensures i >= 0 ==> FirstIndex(cs[i].sections, IdIs(v)) >= 0
    ensures forall k | 0 <= k < |cs| && i < k :: FirstIndex(cs[k].sections, IdIs(v)) < 0
    decreases |cs|
  {
    if cs == [] then -1
    else if FirstIndex(cs[|cs| - 1].sections, IdIs(v)) >= 0 then |cs| - 1
    else LastContaining(cs[..|cs| - 1], v)
  }

  /** What the second effect sets the picker to, or `None` when it leaves it as
      it was: nothing until both collections and the Inbox choice are there;
      the Inbox for no value, the empty value and `'today'`; nothing for an id
      no collection holds; the Inbox for any section of a collection named
      Inbox; otherwise the section itself. */
  function Resolution(value: Option<string>, collections: Option<seq<CollectionSummary>>, inbox: Option<Choice>): Option<Choice>
  {
    if collections.None? || inbox.None? then None
    else if value.None? || value.value == [] || value.value == TodayValue then inbox
    else
      var cs, v := collections.value, value.value;
      var i := LastContaining(cs, v);
      if i < 0 then None
      else if IsInboxCollection(cs[i]) then inbox
      else
        var s := cs[i].sections[FirstIndex(cs[i].sections, IdIs(v))];
        Some(Choice(SectionLabel(cs[i], s), s.id))
  }

  /** What the third effect passes to `setValue`: the chosen id, when there is a
      choice and its id differs from the incoming value. */
  function Reported(picked: Option<Choice>, value: Option<string>): (r: Option<Id>)
    ensures r.Some? <==> picked.Some? && value != Some(picked.value.value)
    ensures r.Some? ==> r.value == picked.value.value
  {
    if picked.Some? && value != Some(picked.value.value) then Some(picked.value.value) else None
  }

  // ------------------------------------------------------------ resolution

  /** Waiting: nothing is resolved while the collections or the Inbox choice are missing. */
  lemma WaitsForCollectionsAndInbox(value: Option<string>, collections: Option<seq<CollectionSummary>>, inbox: Option<Choice>)
    requires collections.None? || inbox.None?
    ensures Resolution(value, collections, inbox).None?
  {
  }

  /** No value, the empty value and `'today'` all resolve to the Inbox. */
  lemma DefaultsToInbox(value: Option<string>, cs: seq<CollectionSummary>, inbox: Choice)
    requires value.None? || value.value == [] || value.value == TodayValue
    ensures Resolution(value, Some(cs), Some(inbox)) == Some(inbox)
  {
  }

  /** No section id occurs twice, in one collection or in two, as in any
      `readAll` result. */
  predicate UniqueSectionIds(cs: seq<CollectionSummary>)
  {
    forall i, j, a, b | 0 <= i < |cs| && 0 <= j < |cs| && 0 <= a < |cs[i].sections| && 0 <= b < |cs[j].sections| &&
      (i != j || a != b) :: cs[i].sections[a].id != cs[j].sections[b].id
  }

  /** With unique section ids, the collection the `forEach` settles on is the
      one holding the section. */
  lemma LastContainingIsTheContaining(cs: seq<CollectionSummary>, v: Id, i: int, a: int)
    requires UniqueSectionIds(cs)
    requires 0 <= i < |cs| && 0 <= a < |cs[i].sections| && cs[i].sections[a].id == v
    ensures LastContaining(cs, v) == i
  {
    assert FirstIndex(cs[i].sections, IdIs(v)) >= 0;
    var k := LastContaining(cs, v);
    assert k >= i;
    var b := FirstIndex(cs[k].sections, IdIs(v));
    assert IdIs(v)(cs[k].sections[b]);
    assert cs[k].sections[b].id == cs[i].sections[a].id;
  }

  /** The sections of every `readAll` result have unique ids. */
  lemma ReadAllSectionIdsUnique(db: Store, cs: seq<CollectionSummary>)
    requires forall i, j | 0 <= i < j < |cs| :: cs[i].id != cs[j].id
    requires forall i | 0 <= i < |cs| :: SummarizesCollection(db, cs[i], false)
    ensures UniqueSectionIds(cs)
  {
    forall i, j, a, b | 0 <= i < |cs| && 0 <= j < |cs| && 0 <= a < |cs[i].sections| && 0 <= b < |cs[j].sections| &&
      (i != j || a != b)
      ensures cs[i].sections[a].id != cs[j].sections[b].id
    {
      assert SummarizesCollection(db, cs[i], false) && SummarizesCollection(db, cs[j], false);
      if i == j {
        assert a < b || b < a;
      } else {
        assert cs[i].sections[a].id in SummaryIds(cs[i].sections);
        assert cs[j].sections[b].id in SummaryIds(cs[j].sections);
        assert cs[i].id != cs[j].id by {
          if i < j { assert cs[i].id != cs[j].id; } else { assert cs[j].id != cs[i].id; }
        }
      }
    }
  }

  /** Any section of the collection named Inbox resolves to the Inbox choice,
      even one that is not its Uncategorized section. */
  lemma InboxSectionsCollapse(cs: seq<CollectionSummary>, inbox: Choice, i: int, a: int)
    requires UniqueSectionIds(cs)
    requires 0 <= i < |cs| && IsInboxCollection(cs[i]) && 0 <= a < |cs[i].sections|
    ensures Resolution(Some(cs[i].sections[a].id), Some(cs), Some(inbox)) == Some(inbox)
  {
    LastContainingIsTheContaining(cs, cs[i].sections[a].id, i, a);
  }

  /** A section of any other collection resolves to its own id, labelled with
      its collection, and with its own name unless it is Uncategorized. */
  lemma OtherCollectionKeepsId(cs: seq<CollectionSummary>, inbox: Choice, i: int, a: int)
    requires UniqueSectionIds(cs)
    requires 0 <= i < |cs| && !IsInboxCollection(cs[i]) && 0 <= a < |cs[i].sections|
    requires cs[i].sections[a].id != [] && cs[i].sections[a].id != TodayValue
    ensures var r := Resolution(Some(cs[i].sections[a].id), Some(cs), Some(inbox));
      && r.Some? && r.value.value == cs[i].sections[a].id
      && r.value.title.CollectionLabel? && r.value.title.collection == cs[i].name
      && (r.value.title.section.None? <==> IsUncategorized(cs[i].sections[a]))
  {
    var v := cs[i].sections[a].id;
    LastContainingIsTheContaining(cs, v, i, a);
    var b := FirstIndex(cs[i].sections, IdIs(v));
    assert IdIs(v)(cs[i].sections[b]);
    assert cs[i].sections[a].id == cs[i].sections[b].id;
  }

  /** An id no collection holds leaves the picker as it was. */
  lemma UnknownUnchanged(cs: seq<CollectionSummary>, inbox: Choice, v: Id)
    requires v != [] && v != TodayValue
    requires forall i, a | 0 <= i < |cs| && 0 <= a < |cs[i].sections| :: cs[i].sections[a].id != v
    ensures Resolution(Some(v), Some(cs), Some(inbox)).None?
  {
    forall k | 0 <= k < |cs| ensures FirstIndex(cs[k].sections, IdIs(v)) < 0 {
      assert forall b | 0 <= b < |cs[k].sections| :: !IdIs(v)(cs[k].sections[b]);
      assert Find(cs[k].sections, IdIs(v)).None?;
    }
  }

  /** The picker settles: once its reported id comes back as the incoming
      value, it resolves to the same choice and reports nothing more. */
  lemma Settles(value: Option<string>, cs: seq<CollectionSummary>)
    requires UniqueSectionIds(cs) && InboxOf(cs).Some?
    requires Resolution(value, Some(cs), InboxOf(cs)).Some?
    ensures var r := Resolution(value, Some(cs), InboxOf(cs));
      && Resolution(Some(r.value.value), Some(cs), InboxOf(cs)) == r
      && Reported(r, Some(r.value.value)).None?
  {
    var inbox := InboxOf(cs);
    var r := Resolution(value, Some(cs), inbox);
    var u := r.value.value;
    if r == inbox && u != [] && u != TodayValue {
      var i, j :| 0 <= i < |cs| && 0 <= j < |cs[i].sections| &&
        IsInboxCollection(cs[i]) && IsUncategorized(cs[i].sections[j]) && u == cs[i].sections[j].id;
      InboxSectionsCollapse(cs, inbox.value, i, j);
    }
  }

  /** The picker of a top-level task's row moves a task that sits in an Inbox
      section other than the Inbox choice's: it reports the Inbox choice's id,
      and the row sends that as the task's new section. */
  lemma RowRehomesInboxTask(cs: seq<CollectionSummary>, t: Task, withDescription: bool, i: int, a: int)
    requires TaskListRow.ShowSectionPicker(t)
    requires UniqueSectionIds(cs) && InboxOf(cs).Some?
    requires 0 <= i < |cs| && IsInboxCollection(cs[i]) && 0 <= a < |cs[i].sections|
    requires t.sectionId == cs[i].sections[a].id && t.sectionId != InboxOf(cs).value.value
    ensures var r := Reported(Resolution(Some(t.sectionId), Some(cs), InboxOf(cs)), Some(t.sectionId));
      && r == Some(InboxOf(cs).value.value)
      && TaskRouter.Updated(t, TaskListRow.ChangeSection(t, withDescription, r.value)) == t.(sectionId := InboxOf(cs).value.value)
  {
    InboxSectionsCollapse(cs, InboxOf(cs).value, i, a);
    TaskListRow.PickersChangeOneField(t, withDescription, t.dueDate, InboxOf(cs).value.value, t.priority);
  }

  // ------------------------------------------------------------------ menu

  /** The (collection, section) pairs the menu lists under "Collections": every
      section of every collection not named Inbox, in order. */
  function Entries(cs: seq<CollectionSummary>): (r: seq<(CollectionSummary, SectionSummary)>)
    decreases |cs|
  {
    if cs == [] then []
    else
      var c := cs[0];
      (if IsInboxCollection(c) then [] else seq(|c.sections|, j requires 0 <= j < |c.sections| => (c, c.sections[j])))
      + Entries(cs[1..])
  }

  /** The menu lists a pair exactly when its collection is one of `cs`, is not
      named Inbox, and holds the section. */
  lemma {:induction false} EntriesMembers(cs: seq<CollectionSummary>, e: (CollectionSummary, SectionSummary))
    ensures e in Entries(cs) <==> e.0 in cs && !IsInboxCollection(e.0) && e.1 in e.0.sections
    decreases |cs|
  {
    if cs != [] {
      EntriesMembers(cs[1..], e);
      var c := cs[0];
      var head := if IsInboxCollection(c) then [] else seq(|c.sections|, j requires 0 <= j < |c.sections| => (c, c.sections[j]));
      assert Entries(cs) == head + Entries(cs[1..]);
      assert e in head <==> e.0 == c && !IsInboxCollection(c) && e.1 in c.sections by {
        if e.0 == c && !IsInboxCollection(c) && e.1 in c.sections {
          var j :| 0 <= j < |c.sections| && c.sections[j] == e.1;
          assert head[j] == e;
        }
      }
      assert e.0 in cs <==> e.0 == c || e.0 in cs[1..];
    }
  }

  /** The menu: the Inbox choice first, when there is one, then one entry per pair. */
  function Menu(inbox: Option<Choice>, collections: Option<seq<CollectionSummary>>): (m: seq<Choice>)
  {
    var es := if collections.Some? then Entries(collections.value) else [];
    (if inbox.Some? then [inbox.value] else [])
    + seq(|es|, k requires 0 <= k < |es| => Choice(SectionLabel(es[k].0, es[k].1), es[k].1.id))
  }

  /** The menu shows the Inbox once, first, and no section of a collection named Inbox. */
  lemma MenuListsInboxOnce(cs: seq<CollectionSummary>)
    ensures var m := Menu(InboxOf(cs), Some(cs));
      && (forall k | 0 <= k < |m| :: m[k].title == InboxLabel <==> k == 0 && InboxOf(cs).Some?)
      && forall k | 0 <= k < |m| && m[k].title != InboxLabel ::
           exists i, a | 0 <= i < |cs| && 0 <= a < |cs[i].sections| ::
             !IsInboxCollection(cs[i]) && cs[i].sections[a].id == m[k].value
  {
    var m := Menu(InboxOf(cs), Some(cs));
    var es := Entries(cs);
    var off := if InboxOf(cs).Some? then 1 else 0;
    forall k | off <= k < |m|
      ensures m[k].title != InboxLabel
      ensures exists i, a | 0 <= i < |cs| && 0 <= a < |cs[i].sections| ::
             !IsInboxCollection(cs[i]) && cs[i].sections[a].id == m[k].value
    {
      var e := es[k - off];
      assert m[k] == Choice(SectionLabel(e.0, e.1), e.1.id);
      EntriesMembers(cs, e);
      var i :| 0 <= i < |cs| && cs[i] == e.0;
      var a :| 0 <= a < |cs[i].sections| && cs[i].sections[a] == e.1;
    }
  }

  /** One more collection: it is the last holder if it holds `v`, else the earlier answer stands. */
  lemma LastContainingStep(cs: seq<CollectionSummary>, v: Id, n: nat)
    requires n < |cs|
    ensures LastContaining(cs[..n + 1], v)
      == if FirstIndex(cs[n].sections, IdIs(v)) >= 0 then n else LastContaining(cs[..n], v)
  {
    assert cs[..n + 1][..n] == cs[..n] && cs[..n + 1][n] == cs[n];
  }

  // ----------------------------------------------------------------- state

  /** The collection at index `k` and its section with id `v`, or nothing for a negative `k`. */
  function Holder(cs: seq<CollectionSummary>, v: Id, k: int): (Option<CollectionSummary>, Option<SectionSummary>)
    requires -1 <= k < |cs| && (k >= 0 ==> FirstIndex(cs[k].sections, IdIs(v)) >= 0)
  {
    if k < 0 then (None, None) else (Some(cs[k]), Some(cs[k].sections[FirstIndex(cs[k].sections, IdIs(v))]))
  }

  /** The `forEach` over the collections: every collection holding a section
      with id `v` overwrites the pair found so far, so the last one is kept. */
  method Containing(cs: seq<CollectionSummary>, v: Id) returns (collection: Option<CollectionSummary>, section: Option<SectionSummary>)
    ensures var k := LastContaining(cs, v);
      && (k < 0 ==> collection.None? && section.None?)
      && (k >= 0 ==> collection == Some(cs[k]) && section == Some(cs[k].sections[FirstIndex(cs[k].sections, IdIs(v))]))
  {
    collection, section := None, None;
    ghost var k := -1;
    for n := 0 to |cs|
      invariant k == LastContaining(cs[..n], v)
      invariant (collection, section) == Holder(cs, v, k)
    {
      LastContainingStep(cs, v, n);
      var result := Find(cs[n].sections, IdIs(v));
      if result.Some? {
        collection, section := Some(cs[n]), result;
        k := n;
      }
    }
    assert cs[..|cs|] == cs;
  }

  class SectionPicker {
    var inbox: Option<Choice>
    var picked: Option<Choice>

    constructor ()
      ensures inbox == None && picked == None
    {
      inbox, picked := None, None;
    }

    /** The first effect: once the collections are loaded, the Inbox choice is
        looked up, and once found it is never replaced. */
    method DiscoverInbox(collections: Option<seq<CollectionSummary>>)
      modifies this
      ensures inbox == if collections.Some? && old(inbox).None? then InboxOf(collections.value) else old(inbox)
      ensures picked == old(picked)
    {
      if collections.None? {
        return;
      }
      if inbox.None? {
        var found := Find(collections.value, IsInboxCollection);
        if found.Some? {
          var section := Find(found.value.sections, IsUncategorized);
          if section.Some? {
            inbox := Some(Choice(InboxLabel, section.value.id));
          }
        }
      }
    }

    /** The second effect, for the incoming value. */
    method Resolve(value: Option<string>, collections: Option<seq<CollectionSummary>>)
      modifies this
      ensures inbox == old(inbox)
      ensures picked == (var r := Resolution(value, collections, old(inbox)); if r.Some? then r else old(picked))
    {
      if collections.None? || inbox.None? {
        return;
      }
      if value.None? || value.value == [] || value.value == TodayValue {
        picked := inbox;
        return;
      }
      var collection, section := Containing(collections.value, value.value);
      if collection.None? || section.None? {
        return;
      }
      if IsInboxCollection(collection.value) {
        picked := inbox;
        return;
      }
      picked := Some(Choice(SectionLabel(collection.value, section.value), section.value.id));
    }

    /** A click on a menu entry. */
    method Pick(c: Choice)
      modifies this
      ensures picked == Some(c) && inbox == old(inbox)
    {
      picked := Some(c);
    }

    /** The third effect: the id `setValue` is called with, if any. */
    method Report(value: Option<string>) returns (r: Option<Id>)
      ensures r == Reported(picked, value)
    {
      r := None;
      if picked.Some? && value != Some(picked.value.value) {
        r := Some(picked.value.value);
      }
    }
  }
}
