/** The add-task form (`AddTaskCard`): its fields, the validity flag that
    follows the text, the guard and payload of "Add", and the reset once the
    store has created the task. */
module AddTaskCard {
  import opened Common
  import opened Db
  import TaskRouter

  /** The characters `String.prototype.trim` removes: white space and line terminators. */
  predicate IsWhitespace(c: char)
  {
    || c == ' ' || c == '\t' || c == '\n' || c == '\r' || c == '\U{000B}' || c == '\U{000C}'
    || c == '\U{00A0}' || c == '\U{1680}' || ('\U{2000}' <= c <= '\U{200A}')
    || c == '\U{2028}' || c == '\U{2029}' || c == '\U{202F}' || c == '\U{205F}'
    || c == '\U{3000}' || c == '\U{FEFF}'
  }

  /** How many white-space characters `s` starts with. */
  function LeadingSpaces(s: string): (n: nat)
    ensures n <= |s|
    decreases |s|
  {
    if s != [] && IsWhitespace(s[0]) then 1 + LeadingSpaces(s[1..]) else 0
  }

  /** How many white-space characters `s` ends with. */
  function TrailingSpaces(s: string): (n: nat)
    ensures n <= |s|
    decreases |s|
  {
    if s != [] && IsWhitespace(s[|s| - 1]) then 1 + TrailingSpaces(s[..|s| - 1]) else 0
  }

  /** The leading run is all white space and stops at the first other character. */
  lemma {:induction false} LeadingSpacesRun(s: string)
    ensures forall i | 0 <= i < LeadingSpaces(s) :: IsWhitespace(s[i])
    ensures LeadingSpaces(s) < |s| ==> !IsWhitespace(s[LeadingSpaces(s)])
    decreases |s|
  {
    if s != [] && IsWhitespace(s[0]) {
      LeadingSpacesRun(s[1..]);
    }
  }

  /** The trailing run is all white space and stops at the last other character. */
  lemma {:induction false} TrailingSpacesRun(s: string)
    ensures forall i | |s| - TrailingSpaces(s) <= i < |s| :: IsWhitespace(s[i])
    ensures TrailingSpaces(s) < |s| ==> !IsWhitespace(s[|s| - TrailingSpaces(s) - 1])
    decreases |s|
  {
    if s != [] && IsWhitespace(s[|s| - 1]) {
      TrailingSpacesRun(s[..|s| - 1]);
    }
  }

  /** `s` with its leading white space removed. */
  function TrimStart(s: string): string
  {
    s[LeadingSpaces(s)..]
  }

  /** `s` with its trailing white space removed. */
  function TrimEnd(s: string): string
  {
    s[..|s| - TrailingSpaces(s)]
  }

  /** `TrimStart` drops only white space and leaves no white space in front. */
  lemma TrimStartDropsSpaces(s: string)
    ensures |TrimStart(s)| <= |s| && TrimStart(s) == s[|s| - |TrimStart(s)|..]
    ensures forall i | 0 <= i < |s| - |TrimStart(s)| :: IsWhitespace(s[i])
    ensures TrimStart(s) != [] ==> !IsWhitespace(TrimStart(s)[0])
  {
    LeadingSpacesRun(s);
  }

  /** `TrimEnd` drops only white space and leaves no white space at the end. */
  lemma TrimEndDropsSpaces(s: string)
    ensures |TrimEnd(s)| <= |s| && TrimEnd(s) == s[..|TrimEnd(s)|]
    ensures forall i | |TrimEnd(s)| <= i < |s| :: IsWhitespace(s[i])
    ensures TrimEnd(s) != [] ==> !IsWhitespace(TrimEnd(s)[|TrimEnd(s)| - 1])
  {
    TrailingSpacesRun(s);
  }

  /** `s.trim()`. */
  function Trim(s: string): string
  {
    TrimEnd(TrimStart(s))
  }

  /** The trimmed text is empty exactly when the text is all white space. */
  lemma TrimEmptyIff(s: string)
    ensures Trim(s) == [] <==> forall i | 0 <= i < |s| :: IsWhitespace(s[i])
  {
    var t := TrimStart(s);
    TrimStartDropsSpaces(s);
    TrimEndDropsSpaces(t);
    if Trim(s) == [] {
      assert t == [];
    } else {
      var e := Trim(s);
      assert !IsWhitespace(e[0]) && e[0] == t[0] == s[|s| - |t|];
    }
  }

  /** What "Add" issues: nothing while the form is invalid (the button is
      disabled) or no section is chosen, otherwise a create request carrying the
      form's fields. The description is always sent, empty or not. */
  function Payload(isFormValid: bool, text: string, description: string, dueDate: Option<Timestamp>,
                   priority: Option<Priority>, sectionId: Option<Id>, parentTaskId: Nullish<Id>): (r: Option<TaskRouter.CreateInput>)
    ensures r.None? <==> !isFormValid || sectionId.None? || sectionId.value == []
    ensures r.Some? ==> r.value.text == text && r.value.description == Given(description)
    ensures r.Some? ==> Stored(r.value.dueDate) == dueDate && Stored(r.value.priority) == priority
    ensures r.Some? ==> r.value.sectionId == sectionId.value && r.value.parentTaskId == parentTaskId
  {
    if !isFormValid || sectionId.None? || sectionId.value == [] then None
    else Some(TaskRouter.CreateInput(text, Given(description), AsNullish(dueDate), AsNullish(priority), sectionId.value, parentTaskId))
  }

  /** A request the form issues while its flag follows the text always passes
      the store's validation. */
  lemma PayloadIsValid(text: string, description: string, dueDate: Option<Timestamp>,
                       priority: Option<Priority>, sectionId: Option<Id>, parentTaskId: Nullish<Id>)
    requires Payload(Trim(text) != [], text, description, dueDate, priority, sectionId, parentTaskId).Some?
    ensures TaskRouter.CreateInputValid(Payload(Trim(text) != [], text, description, dueDate, priority, sectionId, parentTaskId).value)
  {
    TrimEmptyIff(text);
  }

  class AddTaskCard {
    const parentTaskId: Nullish<Id>
    var text: string
    var description: string
    var dueDate: Option<Timestamp>
    var priority: Option<Priority>
    var sectionId: Option<Id>
    var isFormValid: bool

    /** The validity flag follows the text: it holds when the trimmed text is not empty. */
    ghost predicate Valid()
      reads this
    {
      isFormValid == (Trim(text) != [])
    }

    /** The form as it opens: empty texts, the given default due date (or
        none), no priority, the section it was opened in. */
    constructor (currentSectionId: Id, parentTaskId: Nullish<Id>, defaultDueDate: Option<Timestamp>)
      ensures Valid()
      ensures this.parentTaskId == parentTaskId
      ensures text == [] && description == [] && !isFormValid
      ensures dueDate == defaultDueDate && priority == None && sectionId == Some(currentSectionId)
    {
      this.parentTaskId := parentTaskId;
      text, description := [], [];
      dueDate, priority, sectionId := defaultDueDate, None, Some(currentSectionId);
      isFormValid := false;
    }

    /** Typing the text; the flag is recomputed from it. */
    method SetText(s: string)
      requires Valid()
      modifies this
      ensures Valid()
      ensures text == s && isFormValid == (Trim(s) != [])
      ensures description == old(description) && dueDate == old(dueDate)
      ensures priority == old(priority) && sectionId == old(sectionId)
    {
      text := s;
      isFormValid := Trim(s) != [];
    }

    method SetDescription(s: string)
      requires Valid()
      modifies this
      ensures Valid()
      ensures description == s
      ensures text == old(text) && isFormValid == old(isFormValid) && dueDate == old(dueDate)
      ensures priority == old(priority) && sectionId == old(sectionId)
    {
      description := s;
    }

    /** The date picker's and the priority picker's `setValue`. */
    method SetDueDate(d: Option<Timestamp>)
      requires Valid()
      modifies this
      ensures Valid()
      ensures dueDate == d
      ensures text == old(text) && isFormValid == old(isFormValid) && description == old(description)
      ensures priority == old(priority) && sectionId == old(sectionId)
    {
      dueDate := d;
    }

    method SetPriority(p: Option<Priority>)
      requires Valid()
      modifies this
      ensures Valid()
      ensures priority == p
      ensures text == old(text) && isFormValid == old(isFormValid) && description == old(description)
      ensures dueDate == old(dueDate) && sectionId == old(sectionId)
    {
      priority := p;
    }

    /** The section picker's `setValue`. */
    method SetSectionId(s: Id)
      requires Valid()
      modifies this
      ensures Valid()
      ensures sectionId == Some(s)
      ensures text == old(text) && isFormValid == old(isFormValid) && description == old(description)
      ensures dueDate == old(dueDate) && priority == old(priority)
    {
      sectionId := Some(s);
    }

    /** `handleSubmit`: the request "Add" issues from the current fields, if any. */
    method Submit() returns (r: Option<TaskRouter.CreateInput>)
      requires Valid()
      ensures r == Payload(isFormValid, text, description, dueDate, priority, sectionId, parentTaskId)
      ensures r.Some? ==> TaskRouter.CreateInputValid(r.value)
    {
      if !isFormValid || sectionId.None? || sectionId.value == [] {
        return None;
      }
      PayloadIsValid(text, description, dueDate, priority, sectionId, parentTaskId);
      r := Some(TaskRouter.CreateInput(text, Given(description), AsNullish(dueDate), AsNullish(priority), sectionId.value, parentTaskId));
    }

    /** The reset after a successful create: both texts empty, the rest kept. */
    method ClearTexts()
      requires Valid()
      modifies this`text, this`description, this`isFormValid
      ensures Valid()
      ensures text == [] && description == [] && !isFormValid
    {
      TrimEmptyIff([]);
      text, description := [], [];
      isFormValid := false;
    }

    /** "Add" followed by `task.create`: when a request is issued, the store
        creates the task, and the form empties its two texts and keeps the rest,
        staying open for the next task. */
    method Add(db: Store, id: Id) returns (r: Option<Task>)
      requires Valid() && db.Valid() && id !in db.tasks
      modifies this, db
      ensures Valid() && db.Valid()
      ensures old(Payload(isFormValid, text, description, dueDate, priority, sectionId, parentTaskId)).None? ==>
        r.None? && db.tasks == old(db.tasks) && text == old(text) && description == old(description)
      ensures old(Payload(isFormValid, text, description, dueDate, priority, sectionId, parentTaskId)).Some? ==>
        r == Some(TaskRouter.NewTask(old(db.sections), old(db.tasks),
          old(Payload(isFormValid, text, description, dueDate, priority, sectionId, parentTaskId)).value, id))
      ensures r.Some? ==> db.tasks == old(db.tasks)[id := r.value] && text == [] && description == []
      ensures dueDate == old(dueDate) && priority == old(priority) && sectionId == old(sectionId)
      ensures db.collections == old(db.collections) && db.sections == old(db.sections)
      ensures db.checklistItems == old(db.checklistItems) && db.comments == old(db.comments)
    {
      ghost var p := Payload(isFormValid, text, description, dueDate, priority, sectionId, parentTaskId);
      ghost var sections0, tasks0 := db.sections, db.tasks;
      var input := Submit();
      assert input == p;
      if input.None? {
        return None;
      }
      var created := TaskRouter.Create(db, input.value, id);
      assert created.Ok? && created.value == TaskRouter.NewTask(sections0, tasks0, p.value, id);
      assert db.tasks == tasks0[id := created.value];
      ClearTexts();
      r := Some(created.value);
    }
  }
}
