/** The `checklistItem` procedures: `create`, `update`, `delete` and the
    transactional `reoder` (the procedure's own spelling). */
module ChecklistItemRouter {
  import opened Common
  import opened Db
  import opened Batch

  datatype CreateInput = CreateInput(text: string, complete: bool, position: int, taskId: Id)

  predicate CreateInputValid(input: CreateInput)
  {
    input.text != [] && input.taskId != []
  }

  /** `checklistItem.create`: the item is stored as sent, position included;
      no other item is renumbered. `id` is the fresh id the store generates. */
  method Create(db: Store, input: CreateInput, id: Id) returns (r: Result<ChecklistItem>)
    requires db.Valid() && id !in db.checklistItems
    modifies db
    ensures db.Valid()
    ensures r.Ok? <==> CreateInputValid(input)
    ensures r.Err? ==> r.error == Invalid && db.checklistItems == old(db.checklistItems)
    ensures r.Ok? ==> r.value == ChecklistItem(id, input.text, input.complete, input.position, input.taskId)
    ensures r.Ok? ==> db.checklistItems == old(db.checklistItems)[id := r.value]
    ensures db.collections == old(db.collections) && db.sections == old(db.sections)
    ensures db.tasks == old(db.tasks) && db.comments == old(db.comments)
  {
    if !CreateInputValid(input) {
      return Err(Invalid);
    }
    var item := ChecklistItem(id, input.text, input.complete, input.position, input.taskId);
    db.checklistItems := db.checklistItems[id := item];
    r := Ok(item);
  }

  datatype UpdateInput = UpdateInput(id: Id, text: string, complete: bool, position: int)

  predicate UpdateInputValid(u: UpdateInput)
  {
    u.id != [] && u.text != []
  }

  /** The row `update` leaves: text, complete and position written; the item
      stays on its task. */
  function UpdatedItem(c: ChecklistItem, u: UpdateInput): (r: ChecklistItem)
    ensures r.id == c.id && r.taskId == c.taskId
    ensures r.text == u.text && r.complete == u.complete && r.position == u.position
  {
    c.(text := u.text, complete := u.complete, position := u.position)
  }

  /** `checklistItem.update`. */
  method Update(db: Store, u: UpdateInput) returns (r: Result<ChecklistItem>)
    requires db.Valid()
    modifies db
    ensures db.Valid()
    ensures !UpdateInputValid(u) ==> r == Err(Invalid)
    ensures UpdateInputValid(u) && u.id !in old(db.checklistItems) ==> r == Err(NotFound)
    ensures r.Err? ==> db.checklistItems == old(db.checklistItems)
    ensures UpdateInputValid(u) && u.id in old(db.checklistItems) ==>
      r == Ok(UpdatedItem(old(db.checklistItems)[u.id], u)) && db.checklistItems == old(db.checklistItems)[u.id := r.value]
    ensures db.collections == old(db.collections) && db.sections == old(db.sections)
    ensures db.tasks == old(db.tasks) && db.comments == old(db.comments)
  {
    if !UpdateInputValid(u) {
      return Err(Invalid);
    }
    if u.id !in db.checklistItems {
      return Err(NotFound);
    }
    var c := UpdatedItem(db.checklistItems[u.id], u);
    db.checklistItems := db.checklistItems[u.id := c];
    r := Ok(c);
  }

  /** `checklistItem.delete`: removes the one item. */
  method Delete(db: Store, id: Id) returns (r: Result<ChecklistItem>)
    requires db.Valid()
    modifies db
    ensures db.Valid()
    ensures id in old(db.checklistItems) ==> r == Ok(old(db.checklistItems)[id]) && db.checklistItems == old(db.checklistItems) - {id}
    ensures id !in old(db.checklistItems) ==> r == Err(NotFound) && db.checklistItems == old(db.checklistItems)
    ensures db.collections == old(db.collections) && db.sections == old(db.sections)
    ensures db.tasks == old(db.tasks) && db.comments == old(db.comments)
  {
    if id !in db.checklistItems {
      return Err(NotFound);
    }
    r := Ok(db.checklistItems[id]);
    db.checklistItems := db.checklistItems - {id};
  }

  datatype ItemMove = ItemMove(id: Id, position: int)

  function MoveId(m: ItemMove): Id { m.id }

  function MoveItem(c: ChecklistItem, m: ItemMove): ChecklistItem
  {
    c.(position := m.position)
  }

  predicate MovesValid(moves: seq<ItemMove>)
  {
    forall i | 0 <= i < |moves| :: moves[i].id != []
  }

  /** What a committed `reoder` batch leaves in the checklist table. */
  function ReorderItems(items: map<Id, ChecklistItem>, moves: seq<ItemMove>): Option<map<Id, ChecklistItem>>
  {
    ApplyAll(items, moves, MoveId, MoveItem)
  }

  /** `checklistItem.reoder`: one position update per entry, in one transaction. */
  method Reoder(db: Store, moves: seq<ItemMove>) returns (r: Result<()>)
    requires db.Valid()
    modifies db
    ensures db.Valid()
    ensures !MovesValid(moves) ==> r == Err(Invalid)
    ensures MovesValid(moves) && ReorderItems(old(db.checklistItems), moves).None? ==> r == Err(NotFound)
    ensures r.Ok? <==> MovesValid(moves) && ReorderItems(old(db.checklistItems), moves).Some?
    ensures r.Ok? ==> db.checklistItems == ReorderItems(old(db.checklistItems), moves).value
    ensures r.Err? ==> db.checklistItems == old(db.checklistItems)
    ensures db.collections == old(db.collections) && db.sections == old(db.sections)
    ensures db.tasks == old(db.tasks) && db.comments == old(db.comments)
  {
    if exists i | 0 <= i < |moves| :: moves[i].id == [] {
      return Err(Invalid);
    }
    var tx := db.checklistItems;
    for i := 0 to |moves|
      invariant ReorderItems(db.checklistItems, moves[..i]) == Some(tx)
      invariant Keyed(tx, ChecklistItemId)
      invariant db.checklistItems == old(db.checklistItems)
    {
      var m := moves[i];
      assert moves[..i + 1][..i] == moves[..i];
      if m.id !in tx {
        PrefixFailureAborts(db.checklistItems, moves, i + 1, MoveId, MoveItem);
        return Err(NotFound);
      }
      tx := tx[m.id := MoveItem(tx[m.id], m)];
    }
    assert moves[..|moves|] == moves;
    db.checklistItems := tx;
    r := Ok(());
  }

  lemma MoveItemOverwrites()
    ensures Overwriting(MoveItem)
  {
  }

  /** A committed batch: a listed item has the position of its last entry and
      its text, completion and task as before; an unlisted item is unchanged. */
  lemma ReorderItemsAt(items: map<Id, ChecklistItem>, moves: seq<ItemMove>, k: Id)
    requires ReorderItems(items, moves).Some? && k in items
    ensures ReorderItems(items, moves).value.Keys == items.Keys
    ensures var j := LastEntry(moves, MoveId, k);
      ReorderItems(items, moves).value[k] == if j < 0 then items[k] else items[k].(position := moves[j].position)
  {
    ApplyAllKeys(items, moves, MoveId, MoveItem);
    MoveItemOverwrites();
    ApplyAllAt(items, moves, MoveId, MoveItem, k);
  }

  /** A batch commits exactly when every listed item exists. */
  lemma ReorderItemsSucceedsIff(items: map<Id, ChecklistItem>, moves: seq<ItemMove>)
    ensures ReorderItems(items, moves).Some? <==> forall i | 0 <= i < |moves| :: moves[i].id in items
  {
    ApplyAllSucceedsIff(items, moves, MoveId, MoveItem);
  }
}
