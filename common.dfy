/** The records of the task manager's relational store and the value shapes that
    the procedures exchange. Field names follow the store's columns. */
module Common {

  /** Row identifiers are strings (the store generates them). */
  type Id = string

  datatype Option<+T> = None | Some(value: T)

  /** A `nullish` input field: left out of the request, sent as `null`, or given.
      The store treats a left-out field of an update as "keep the stored value". */
  datatype Nullish<+T> = Absent | Null | Given(value: T)

  /** Why a procedure failed: its input did not pass validation, or the row it
      names does not exist. */
  datatype Error = Invalid | NotFound

  datatype Result<+T> = Ok(value: T) | Err(error: Error)

  datatype Priority = UrgentAndImportant | Urgent | Important

  /** Timestamps are milliseconds since the epoch. */
  type Timestamp = int

  datatype Collection = Collection(id: Id, name: string, position: int, parentId: Option<Id>)

  datatype Section = Section(id: Id, name: string, position: int, collectionId: Id)

  datatype Task = Task(
    id: Id,
    text: string,
    description: Option<string>,
    dueDate: Option<Timestamp>,
    priority: Option<Priority>,
    complete: bool,
    position: int,
    sectionId: Id,
    parentId: Option<Id>)

  datatype ChecklistItem = ChecklistItem(id: Id, text: string, complete: bool, position: int, taskId: Id)

  datatype Comment = Comment(id: Id, text: string, posted: Timestamp, taskId: Id)

  /** The value a create stores for a nullish field: both `null` and a left-out
      field store null. */
  function Stored<T>(n: Nullish<T>): (r: Option<T>)
    ensures r.Some? <==> n.Given?
    ensures n.Given? ==> r == Some(n.value)
  {
    match n
    case Given(v) => Some(v)
    case _ => None
  }

  /** The value an update leaves in a nullish column: a left-out field keeps
      `current`, `null` clears it, a given value replaces it. */
  function Overwrite<T>(n: Nullish<T>, current: Option<T>): (r: Option<T>)
    ensures n.Absent? ==> r == current
    ensures n.Null? ==> r == None
    ensures n.Given? ==> r == Some(n.value)
  {
    match n
    case Absent => current
    case Null => None
    case Given(v) => Some(v)
  }

  /** The nullish value a client sends for a column it holds: null stays null. */
  function AsNullish<T>(o: Option<T>): (n: Nullish<T>)
    ensures !n.Absent?
    ensures Stored(n) == o
  {
    match o
    case None => Null
    case Some(v) => Given(v)
  }

  /** Sending the stored value back overwrites a column with itself. */
  lemma OverwriteWithOwnValue<T>(o: Option<T>, current: Option<T>)
    ensures Overwrite(AsNullish(o), current) == o
  {
  }

  /** The keys of a table are the ids of its rows. */
  ghost predicate Keyed<T>(m: map<Id, T>, id: T -> Id)
  {
    forall k | k in m :: id(m[k]) == k
  }

  function CollectionId(c: Collection): Id { c.id }
  function SectionId(s: Section): Id { s.id }
  function TaskId(t: Task): Id { t.id }
  function ChecklistItemId(c: ChecklistItem): Id { c.id }
  function CommentId(c: Comment): Id { c.id }
}
