/** The `comment` procedures: `create`, `update` (text only) and `delete`. */
module CommentRouter {
  import opened Common
  import opened Db

  datatype CreateInput = CreateInput(text: string, posted: Timestamp, taskId: Id)

  predicate CreateInputValid(input: CreateInput)
  {
    input.text != [] && input.taskId != []
  }

  /** `comment.create`: text, posting time and task stored as sent. `id` is
      the fresh id the store generates. */
  method Create(db: Store, input: CreateInput, id: Id) returns (r: Result<Comment>)
    requires db.Valid() && id !in db.comments
    modifies db
    ensures db.Valid()
    ensures r.Ok? <==> CreateInputValid(input)
    ensures r.Err? ==> r.error == Invalid && db.comments == old(db.comments)
    ensures r.Ok? ==> r.value == Comment(id, input.text, input.posted, input.taskId)
    ensures r.Ok? ==> db.comments == old(db.comments)[id := r.value]
    ensures db.collections == old(db.collections) && db.sections == old(db.sections)
    ensures db.tasks == old(db.tasks) && db.checklistItems == old(db.checklistItems)
  {
    if !CreateInputValid(input) {
      return Err(Invalid);
    }
    var c := Comment(id, input.text, input.posted, input.taskId);
    db.comments := db.comments[id := c];
    r := Ok(c);
  }

  /** The row `update` leaves: new text, same posting time and task. */
  function Edited(c: Comment, text: string): (r: Comment)
    ensures r.id == c.id && r.posted == c.posted && r.taskId == c.taskId
    ensures r.text == text
  {
    c.(text := text)
  }

  /** Only the last edit of a comment's text shows. */
  lemma LastEditWins(c: Comment, a: string, b: string)
    ensures Edited(Edited(c, a), b) == Edited(c, b)
  {
  }

  /** `comment.update`. */
  method Update(db: Store, id: Id, text: string) returns (r: Result<Comment>)
    requires db.Valid()
    modifies db
    ensures db.Valid()
    ensures id == [] || text == [] ==> r == Err(Invalid)
    ensures id != [] && text != [] && id !in old(db.comments) ==> r == Err(NotFound)
    ensures r.Err? ==> db.comments == old(db.comments)
    ensures id != [] && text != [] && id in old(db.comments) ==>
      r == Ok(Edited(old(db.comments)[id], text)) && db.comments == old(db.comments)[id := r.value]
    ensures db.collections == old(db.collections) && db.sections == old(db.sections)
    ensures db.tasks == old(db.tasks) && db.checklistItems == old(db.checklistItems)
  {
    if id == [] || text == [] {
      return Err(Invalid);
    }
    if id !in db.comments {
      return Err(NotFound);
    }
    var c := Edited(db.comments[id], text);
    db.comments := db.comments[id := c];
    r := Ok(c);
  }

  /** `comment.delete`: removes the one comment. */
  method Delete(db: Store, id: Id) returns (r: Result<Comment>)
    requires db.Valid()
    modifies db
    ensures db.Valid()
    ensures id in old(db.comments) ==> r == Ok(old(db.comments)[id]) && db.comments == old(db.comments) - {id}
    ensures id !in old(db.comments) ==> r == Err(NotFound) && db.comments == old(db.comments)
    ensures db.collections == old(db.collections) && db.sections == old(db.sections)
    ensures db.tasks == old(db.tasks) && db.checklistItems == old(db.checklistItems)
  {
    if id !in db.comments {
      return Err(NotFound);
    }
    r := Ok(db.comments[id]);
    db.comments := db.comments - {id};
  }
}
