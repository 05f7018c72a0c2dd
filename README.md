# Task manager core in Dafny

This project models the core of a small task manager. The server side is a set of
tRPC procedures over a Prisma database. The store holds five tables: collections,
sections (every collection has an `Uncategorized` one), tasks (with optional
sub-tasks), checklist items and comments.

The model has three parts:

- **The routers.** The routers `task`, `collection`, `section`, `checklistItem` and
  `comment` are modules. Their procedures are methods on one in-memory store,
  `Db.Store`, a class with one `map` field per table.
  - Each mutation states its whole new state, including that the other tables are
    unchanged.
  - Each reorder batch is specified by `Batch.ApplyAll`. This is a sequential,
    all-or-nothing application of row updates, as a `$transaction` gives.
  - The read queries return sorted lists, built by selection sort over the rows.
- **The Upcoming page.** Its bucketing is modelled as pure functions over
  integer timestamps. Days are UTC days of 86 400 000 ms, and 1970-01-01 is a
  Thursday. The page is built over any list of days (`Upcoming.ViewOver`), once
  over the window as written (`Upcoming.UpcomingViewAsWritten`, two weeks on a
  Saturday) and once over the corrected week (`Upcoming.UpcomingView`). Its
  shape, its distinct ids and its one-day-per-task property are proved for both.
- **The client rules that decide what reaches the store:**
  - the collection page (drag-end payloads, visibility rules, the header count, the
    add-section form);
  - the task row (single-field update payloads, sub-task progress);
  - the add-task form (validity, guard, payload, reset);
  - the task dialog;
  - the two section pickers (Inbox discovery and default resolution).

  Forms and pickers whose `useState` fields change are classes. Payload builders and
  visibility rules are functions.

Conventions:

- Prisma's "missing field keeps the stored value" is `Common.Nullish`
  (`Absent | Null | Given`).
- A failing zod `min(1)` check is `Err(Invalid)`.
- An update or delete of a missing row (Prisma's P2025) is `Err(NotFound)`.
- Generated ids are parameters of the method that creates the row.
- The clock is a parameter (`now`, `today`).

The visibility predicates of the collection page have no contracts of their own. They
are stated by `CollectionView.DefaultSectionIsFixed` and `CollectionView.UpcomingPageIsFixed`.
Task rows keep their drag handles everywhere, the Upcoming page included.

The task dialog's section, due-date and priority handlers (src/components/TaskModal.tsx:123-133)
build the same requests as the task row's. They are `TaskListRow.ChangeSection`,
`ChangeDueDate` and `ChangePriority`. Its progress display (src/components/TaskModal.tsx:290-291)
uses the same formula as `TaskListRow.Progress`.

## Model

| member | source | states |
|---|---|---|
| Common.Stored | src/integrations/trpc/routers/task.ts:82-92 | a nullish input stores a value exactly when one is given, and stores that value |
| Common.Overwrite | src/integrations/trpc/routers/task.ts:112-120 | on update, an absent field keeps the stored value, `null` clears it, and a given value replaces it |
| Common.AsNullish | src/components/shared/AddTaskCard.tsx:80-87 | a client value sent as a nullish input is never absent, and it stores back as itself |
| Common.OverwriteWithOwnValue | src/components/shared/TaskListRow.tsx:45-61 | a field sent from a client copy, `null` or a value, replaces the stored field with exactly that value |
| Batch.LastEntry | src/integrations/trpc/routers/task.ts:149-157 | the index of the last batch entry for a key: no later entry has that key |
| Batch.LastEntryOfDistinct | src/integrations/trpc/routers/task.ts:149-157 | with distinct keys, each entry is the last for its key |
| Batch.ApplyAllKeys | src/integrations/trpc/routers/task.ts:147-159 | a successful batch keeps the table's key set |
| Batch.ApplyAllSucceedsIff | src/integrations/trpc/routers/task.ts:147-159 | a batch commits iff every listed key names a row |
| Batch.PrefixFailureAborts | src/integrations/trpc/routers/task.ts:147-159 | one missing key at any position aborts the whole batch, even after earlier successful updates |
| Batch.ApplyAllAt | src/integrations/trpc/routers/task.ts:149-157 | for overwriting updates, each row ends as its last listed entry sets it; unlisted rows are untouched |
| Ordering.LexLeTotal | src/integrations/trpc/routers/task.ts:16-18 | `text: 'asc'` compares any two texts |
| Ordering.LexLeTransitive | src/integrations/trpc/routers/task.ts:16-18 | the text order is transitive |
| Ordering.LexLeAntisymmetric | src/integrations/trpc/routers/task.ts:16-18 | two texts ordered both ways are equal |
| Ordering.SortSet | src/integrations/trpc/routers/collection.ts:32-34 | `orderBy` output: every row once, nothing else, sorted by the given total preorder |
| Ordering.Enumerate | src/integrations/trpc/routers/collection.ts:18-30 | a relation without `orderBy`: every row once, in some order |
| Ordering.SortByPosition | src/integrations/trpc/routers/collection.ts:32-34 | `position: 'asc'`: every row once, positions non-decreasing |
| Ordering.SortByText | src/integrations/trpc/routers/task.ts:16-18 | `text: 'asc'`: every row once, texts in lexicographic order |
| Days.StartOfDay | src/integrations/trpc/routers/task.ts:11 | the midnight at or before `t`, less than one day earlier |
| Days.EndOfDay | src/integrations/trpc/routers/task.ts:12 | the last millisecond of `t`'s day: same day, not before `t` |
| Days.SameDayIff | src/routes/upcoming.tsx:53 | a timestamp's day is midnight `d` iff it lies in `[d, d + one day)` |
| Days.StartOfDayMonotone | src/routes/upcoming.tsx:41 | earlier instants never have later days |
| Days.Weekday | src/routes/upcoming.tsx:25 | the weekday is one of 0..6, with 0 for Sunday |
| Days.WeekdayAddDays | src/routes/upcoming.tsx:25-29 | moving by `n` days moves the weekday by `n` mod 7 and keeps the time of day |
| Days.DaysFromShape | src/routes/upcoming.tsx:27-28 | `eachDayOfInterval` from a midnight lists consecutive midnights |
| Days.IntString | src/routes/upcoming.tsx:57 | `getTime().toString()` is a non-empty decimal, optionally signed |
| Days.IntStringInjective | src/routes/upcoming.tsx:57 | distinct days get distinct section ids |
| TaskRouter.DueTodayIff | src/integrations/trpc/routers/task.ts:9-15 | `today`'s filter: open, with a due date on today's day, excluding its final millisecond |
| TaskRouter.Today | src/integrations/trpc/routers/task.ts:7-20 | exactly the stored tasks due today, each once, sorted by text |
| TaskRouter.Upcoming | src/integrations/trpc/routers/task.ts:21-27 | every stored task, each once, sorted by text, with no filter |
| TaskRouter.Create | src/integrations/trpc/routers/task.ts:49-93 | rejects empty text or section with nothing stored; otherwise stores exactly the new row and leaves the other tables unchanged |
| TaskRouter.TopLevelPosition | src/integrations/trpc/routers/task.ts:61-69 | a top-level task's position is the number of tasks in its section, completed and sub-tasks included, or 0 for an unknown section |
| TaskRouter.SectionCountGrows | src/integrations/trpc/routers/task.ts:61-69 | storing a task adds one to its own section's count only |
| TaskRouter.ChildCountGrows | src/integrations/trpc/routers/task.ts:70-80 | storing a task adds one to its own parent's child count only |
| TaskRouter.ConsecutiveTopLevelPositions | src/integrations/trpc/routers/task.ts:61-69 | two top-level creates in one section get consecutive positions |
| TaskRouter.SubTaskPositions | src/integrations/trpc/routers/task.ts:70-81 | the first child of a parent gets 1, and each later one the next number |
| TaskRouter.SubTaskTakesSectionSlot | src/integrations/trpc/routers/task.ts:61-81 | a sub-task still raises the next top-level position of its section |
| TaskRouter.Updated | src/integrations/trpc/routers/task.ts:107-121 | update replaces text, complete, position and section; description, due date and priority follow the nullish rule; id and parent are kept |
| TaskRouter.UpdateIdempotent | src/integrations/trpc/routers/task.ts:107-121 | applying the same update twice equals applying it once |
| TaskRouter.Update | src/integrations/trpc/routers/task.ts:94-122 | invalid input is `Invalid`, a missing id is `NotFound`, and both leave the store unchanged; otherwise only that row is rewritten |
| TaskRouter.Delete | src/integrations/trpc/routers/task.ts:123-135 | removes exactly the named row and returns it; a missing row is `NotFound` |
| TaskRouter.Reorder | src/integrations/trpc/routers/task.ts:136-160 | commits the whole batch iff it is valid and every id exists; otherwise the tasks are unchanged |
| TaskRouter.MoveTaskOverwrites | src/integrations/trpc/routers/task.ts:149-157 | a row update depends only on the row and the entry, so a later entry overrides an earlier one |
| TaskRouter.ReorderSucceedsIff | src/integrations/trpc/routers/task.ts:146-159 | the batch commits iff every listed id names a task |
| TaskRouter.ReorderAt | src/integrations/trpc/routers/task.ts:146-159 | after a batch each task has the position and section of its last entry, and unlisted tasks are unchanged |
| TaskRouter.ReorderKeepsKeyed | src/integrations/trpc/routers/task.ts:149-157 | every row is still stored under its own id |
| CollectionRouter.TaskCountIsOpenTopLevel | src/integrations/trpc/routers/collection.ts:37-43 | the summed `taskCount` is the number of open top-level tasks in the collection's sections |
| CollectionRouter.SummarizeSection | src/integrations/trpc/routers/collection.ts:18-30 | a section's summary has its stored name and position, the total task count when asked, and the texts of its open top-level tasks, one entry per task |
| CollectionRouter.SummarizeCollection | src/integrations/trpc/routers/collection.ts:6-44 | a collection's summary lists each of its sections once, each summarized one text per open top-level task, with the `taskCount` above |
| CollectionRouter.ReadAll | src/integrations/trpc/routers/collection.ts:5-45 | every collection once, summarized, by position |
| CollectionRouter.Children | src/integrations/trpc/routers/collection.ts:70-84 | a task's children, all of them, by position |
| CollectionRouter.SectionTasks | src/integrations/trpc/routers/collection.ts:65-87 | a section's tasks that are not complete, sub-tasks included, by position, each with its children |
| CollectionRouter.SectionDetails | src/integrations/trpc/routers/collection.ts:54-89 | every section of the collection once, by position, with name, total count and listed tasks |
| CollectionRouter.ReadOne | src/integrations/trpc/routers/collection.ts:46-95 | an empty id is `Invalid`, an unknown id is `None`, and otherwise the collection with its detailed sections |
| CollectionRouter.Inbox | src/integrations/trpc/routers/collection.ts:96-129 | `None` iff no collection is named Inbox; otherwise an Inbox, summarized with its `taskCount` |
| CollectionRouter.Create | src/integrations/trpc/routers/collection.ts:130-152 | an empty name is `Invalid` with nothing stored; otherwise the collection and its `Uncategorized` section are stored |
| CollectionRouter.CreateGivesOneSection | src/integrations/trpc/routers/collection.ts:137-149 | the new collection has exactly one section, `Uncategorized` at position 0, and its position is the number of stored collections plus one |
| CollectionRouter.CreateAfterDeleteRepeatsPosition | src/integrations/trpc/routers/collection.ts:137-141 | the position is a count, not a maximum: with collections at positions 0 and 3, a new one also gets 3 |
| CollectionRouter.ParseUpdate | src/integrations/trpc/routers/collection.ts:155-160 | the input parses iff id, name and position are present and the strings are non-empty |
| CollectionRouter.UpdatedCollection | src/integrations/trpc/routers/collection.ts:162-172 | name and position are replaced, the parent follows the nullish rule, and the id is kept |
| CollectionRouter.Update | src/integrations/trpc/routers/collection.ts:153-173 | `Invalid` or `NotFound` leave the store unchanged; otherwise only that collection is rewritten |
| CollectionRouter.Delete | src/integrations/trpc/routers/collection.ts:174-186 | removes exactly the named collection; a missing one is `NotFound` |
| CollectionRouter.Reorder | src/integrations/trpc/routers/collection.ts:187-209 | commits the whole batch iff it is valid and every id exists |
| CollectionRouter.MoveCollectionOverwrites | src/integrations/trpc/routers/collection.ts:199-206 | a later entry for the same collection overrides an earlier one |
| CollectionRouter.ReorderCollectionsAt | src/integrations/trpc/routers/collection.ts:196-208 | only `position` changes, to the last listed value |
| CollectionRouter.ReorderCollectionsSucceedsIff | src/integrations/trpc/routers/collection.ts:196-208 | the batch commits iff every listed id exists |
| CollectionRouter.InitializeCollections | src/integrations/trpc/routers/collection.ts:210-233 | always reports success; the store becomes the bootstrap state and the other tables are unchanged |
| CollectionRouter.BootstrapProvidesInbox | src/integrations/trpc/routers/collection.ts:211-230 | afterwards an Inbox exists, and every stored collection and section is kept |
| CollectionRouter.BootstrapIdempotent | src/integrations/trpc/routers/collection.ts:211-230 | a second bootstrap, with any ids, changes nothing |
| CollectionRouter.FirstUserCollectionPosition | src/integrations/trpc/routers/collection.ts:137-141 | on an empty store Inbox gets 0, so the first user collection gets 2 |
| SectionRouter.Create | src/integrations/trpc/routers/section.ts:36-59 | empty name or collection is `Invalid`; otherwise the section is stored with the counted position |
| SectionRouter.CreateJoinsCollection | src/integrations/trpc/routers/section.ts:52-58 | the new section joins its own collection and no other |
| SectionRouter.ConsecutiveSectionPositions | src/integrations/trpc/routers/section.ts:44-55 | sections created one after another in a collection get consecutive positions |
| SectionRouter.Delete | src/integrations/trpc/routers/section.ts:79-91 | removes exactly the named section; a missing one is `NotFound` |
| ChecklistItemRouter.Create | src/integrations/trpc/routers/checklistItem.ts:12-30 | empty text or task is `Invalid`; otherwise the item is stored with its given position, and no siblings are renumbered |
| ChecklistItemRouter.UpdatedItem | src/integrations/trpc/routers/checklistItem.ts:40-50 | text, complete and position are replaced; id and task are kept |
| ChecklistItemRouter.Update | src/integrations/trpc/routers/checklistItem.ts:31-51 | `Invalid` or `NotFound` leave the store unchanged; otherwise only that item is rewritten |
| ChecklistItemRouter.Delete | src/integrations/trpc/routers/checklistItem.ts:52-64 | removes exactly the named item |
| ChecklistItemRouter.Reoder | src/integrations/trpc/routers/checklistItem.ts:65-87 | commits the whole batch iff it is valid and every id exists |
| ChecklistItemRouter.MoveItemOverwrites | src/integrations/trpc/routers/checklistItem.ts:77-84 | a later entry for the same item overrides an earlier one |
| ChecklistItemRouter.ReorderItemsAt | src/integrations/trpc/routers/checklistItem.ts:74-86 | only `position` changes, to the last listed value |
| ChecklistItemRouter.ReorderItemsSucceedsIff | src/integrations/trpc/routers/checklistItem.ts:74-86 | the batch commits iff every listed id exists |
| CommentRouter.Create | src/integrations/trpc/routers/comment.ts:12-28 | empty text or task is `Invalid`; otherwise text, posted and task are stored as given |
| CommentRouter.Edited | src/integrations/trpc/routers/comment.ts:36-44 | an edit replaces the text only |
| CommentRouter.LastEditWins | src/integrations/trpc/routers/comment.ts:36-44 | of two edits, the later text is the one kept |
| CommentRouter.Update | src/integrations/trpc/routers/comment.ts:29-45 | `Invalid` or `NotFound` leave the store unchanged; otherwise only that comment's text changes |
| CommentRouter.Delete | src/integrations/trpc/routers/comment.ts:46-58 | removes exactly the named comment |
| Upcoming.Window | src/routes/upcoming.tsx:25-29 | the window, corrected as in "Findings", has seven days |
| Upcoming.WindowIsWeek | src/routes/upcoming.tsx:25-29 | the window is Sunday to Saturday of today's week, in order, all midnights, and it contains today |
| Upcoming.WindowAsWrittenShape | src/routes/upcoming.tsx:25-29 | as written, the window has 14 days on a Saturday and 7 on other days, and it matches the corrected one except on Saturdays |
| Upcoming.SaturdayWindowSpansTwoWeeks | src/routes/upcoming.tsx:26 | on Saturday 1970-01-03 the window as written lists 14 days |
| Upcoming.OverdueSection | src/routes/upcoming.tsx:34-47 | the Overdue pseudo-section has id `Overdue` and position 0 |
| Upcoming.DaySection | src/routes/upcoming.tsx:49-65 | a day's id is its timestamp as text, its position is the timestamp, and its count is its bucket size |
| Upcoming.DaySections | src/routes/upcoming.tsx:49-65 | one day section per window day, in order |
| Upcoming.WindowsAscend | src/routes/upcoming.tsx:25-29 | both windows, as written and corrected, list midnights in increasing order |
| Upcoming.ViewOver | src/routes/upcoming.tsx:67-72 | the page over a list of days has one section more than there are days |
| Upcoming.UpcomingViewAsWritten | src/routes/upcoming.tsx:25-72 | the page as written has one section per day of the as-written window, plus Overdue |
| Upcoming.UpcomingView | src/routes/upcoming.tsx:67-72 | the page over the corrected week: Overdue plus seven day sections |
| Upcoming.ViewOverShape | src/routes/upcoming.tsx:67-72 | over ascending days: Overdue first, then exactly the listed days' sections, at increasing positions |
| Upcoming.ViewShape | src/routes/upcoming.tsx:25-72 | in both pages, Overdue first, then their window's day sections at increasing positions; the corrected page has 8 sections, the page as written 15 on a Saturday and 8 otherwise |
| Upcoming.OverdueMembers | src/routes/upcoming.tsx:38-43 | Overdue holds exactly the fetched tasks due before today's midnight |
| Upcoming.OverdueCountCountsAll | src/routes/upcoming.tsx:44-46 | Overdue's count is the number of all fetched tasks, and it exceeds the bucket when any task is not overdue |
| Upcoming.DayMembers | src/routes/upcoming.tsx:50-54 | a day bucket holds exactly the fetched tasks due on that day |
| Upcoming.AtMostOneDayOver | src/routes/upcoming.tsx:49-65 | over ascending midnights, no task is in two day buckets |
| Upcoming.AtMostOneDay | src/routes/upcoming.tsx:25-65 | no task is in two day buckets, in the corrected page and in the page as written |
| Upcoming.OverdueAndOnItsDay | src/routes/upcoming.tsx:38-54 | a task due earlier in the week is both overdue and in its day bucket |
| Upcoming.ViewOverIds | src/routes/upcoming.tsx:35-57 | the first section's id is `Overdue`, and each day section's id is its day's timestamp as text |
| Upcoming.DayIdNotOverdue | src/routes/upcoming.tsx:35-57 | no day id reads `Overdue` |
| Upcoming.IdsDistinct | src/routes/upcoming.tsx:35-57 | `Overdue` followed by the ids of distinct days repeats no id |
| Upcoming.SectionIdsDistinctOver | src/routes/upcoming.tsx:35-72 | over ascending days, no two sections share an id |
| Upcoming.SectionIdsDistinct | src/routes/upcoming.tsx:25-72 | no two sections share an id, in the corrected page (8 sections) and in the page as written (15 on a Saturday) |
| Upcoming.TodayFeedShowsOnlyToday | src/routes/upcoming.tsx:32 | fed the `today` query, the page as written shows Overdue and every day except today empty, Saturdays included |
| Upcoming.UpcomingFeedShowsWeek | src/integrations/trpc/routers/task.ts:21-27 | fed the `upcoming` query, every stored task due in the week is in its day bucket |
| CollectionView.SectionDragEnd | src/components/CollectionView.tsx:89-95 | the same ids in drop order, with positions 0..n-1 |
| CollectionView.DropMoves | src/components/CollectionView.tsx:378-384 | the i-th dropped task gets position i and the container's section |
| CollectionView.TaskDragEnd | src/components/CollectionView.tsx:372-384 | nothing is sent iff the container has no label; otherwise the moves above |
| CollectionView.DropCommits | src/components/CollectionView.tsx:372-384 | a drop of stored tasks commits whatever section the container names, since `task.reorder` never looks the section up |
| CollectionView.DropOnUpcomingOrphans | src/components/CollectionView.tsx:372-384 | as written, a drop of stored tasks into a computed section of the Upcoming page (Overdue or a day) commits and leaves a task whose section is not stored |
| CollectionView.StoredTaskDragEnd | src/components/CollectionView.tsx:372-384 | corrected: the moves are sent only when the container names a stored section |
| CollectionView.StoredDropKeepsSectionsExist | src/components/CollectionView.tsx:372-384 | a corrected drop of stored tasks commits and keeps every task in a stored section |
| CollectionView.DropPlaces | src/components/CollectionView.tsx:378-384 | after a drop each dropped task has its index as position and the container's section, and nothing else changes |
| CollectionView.DropKeepsOthers | src/components/CollectionView.tsx:378-384 | tasks not dropped are unchanged |
| CollectionView.DraggableTasks | src/components/CollectionView.tsx:387-390 | only tasks without a parent are draggable |
| CollectionView.DraggableAreOpenTopLevel | src/components/CollectionView.tsx:389 | with `readOne`'s list, the draggable tasks are exactly the open top-level tasks of the section |
| CollectionView.DefaultSectionIsFixed | src/components/CollectionView.tsx:446-499 | an `Uncategorized` section has no drag handle, no rename and no menu |
| CollectionView.UpcomingPageIsFixed | src/components/CollectionView.tsx:88-251 | the Upcoming page allows no section reordering, no new section, no rename and no section drag handles; its Overdue section has no menu and no "Add task" (task rows keep their handles) |
| CollectionView.TaskLists | src/components/CollectionView.tsx:199 | the task list of each section, in order |
| CollectionView.HeaderCount | src/components/CollectionView.tsx:199 | the header count is the total length of all sections' task lists |
| CollectionView.RenameAsWritten | src/components/CollectionView.tsx:188-193 | the rename request as written carries id and new name but no position |
| CollectionView.RenameAsWrittenIsRejected | src/components/CollectionView.tsx:188-193 | that request always fails validation |
| CollectionView.Rename | src/components/CollectionView.tsx:188-193 | the corrected request also carries the stored position |
| CollectionView.RenameChangesOnlyName | src/integrations/trpc/routers/collection.ts:162-172 | the corrected request is accepted and changes the name only |
| CollectionView.AddSectionForm.constructor | src/components/CollectionView.tsx:34-35 | the form starts closed with an empty name |
| CollectionView.AddSectionForm.Toggle | src/components/CollectionView.tsx:255 | opens or closes the form and keeps the name |
| CollectionView.AddSectionForm.SetName | src/components/CollectionView.tsx:266 | sets the name only |
| CollectionView.AddSectionForm.Add | src/components/CollectionView.tsx:278-283 | creates the section iff name and collection are non-empty, then closes and clears; on `Invalid` nothing changes |
| TaskListRow.CopyOverwrites | src/components/shared/TaskListRow.tsx:45-61 | sending an edited copy of a task rewrites the stored row to that copy |
| TaskListRow.CopyIsValid | src/integrations/trpc/routers/task.ts:96-105 | a copy passes validation iff its id, text and section are non-empty |
| TaskListRow.ToggleComplete | src/components/shared/TaskListRow.tsx:45-48 | the request negates `complete` |
| TaskListRow.ChangeDueDate | src/components/shared/TaskListRow.tsx:55-57 | the request carries the new due date |
| TaskListRow.ChangeSection | src/components/shared/TaskListRow.tsx:59-61 | the request carries the new section |
| TaskListRow.ChangePriority | src/components/shared/TaskListRow.tsx:95-97 | the request carries the new priority |
| TaskListRow.ToggleChangesOnlyComplete | src/components/shared/TaskListRow.tsx:45-48 | applied, the toggle flips `complete` and nothing else |
| TaskListRow.ToggleTwiceRestores | src/components/shared/TaskListRow.tsx:45-48 | two toggles restore the task |
| TaskListRow.PickersChangeOneField | src/components/shared/TaskListRow.tsx:55-97 | each picker replaces exactly its own field |
| TaskListRow.Progress | src/components/shared/TaskListRow.tsx:81-87 | shown iff there is a child: done over total, full iff all are complete, zero iff none is |
| TaskListRow.PickerForTopLevelOnly | src/components/shared/TaskListRow.tsx:99-106 | a created task shows the picker iff it was created without a parent |
| AddTaskCard.TrimStartDropsSpaces | src/components/shared/AddTaskCard.tsx:36 | a suffix of the text, dropping only white space, and not starting with white space |
| AddTaskCard.TrimEndDropsSpaces | src/components/shared/AddTaskCard.tsx:36 | a prefix of the text, dropping only white space, and not ending with white space |
| AddTaskCard.TrimEmptyIff | src/components/shared/AddTaskCard.tsx:35-41 | the trimmed text is empty iff the text is all white space |
| AddTaskCard.Payload | src/components/shared/AddTaskCard.tsx:73-88 | nothing is sent iff the form is invalid or no section is chosen; otherwise the form's fields are sent, the description always as text |
| AddTaskCard.PayloadIsValid | src/components/shared/AddTaskCard.tsx:35-41 | whatever the form sends passes `create`'s validation |
| AddTaskCard.AddTaskCard.constructor | src/components/shared/AddTaskCard.tsx:28-33 | empty texts, the default due date, no priority, the current section, invalid |
| AddTaskCard.AddTaskCard.SetText | src/components/shared/AddTaskCard.tsx:35-41 | the text is set and the validity flag follows it |
| AddTaskCard.AddTaskCard.SetDescription | src/components/shared/AddTaskCard.tsx:105 | sets the description only |
| AddTaskCard.AddTaskCard.SetDueDate | src/components/shared/AddTaskCard.tsx:109 | sets the due date only |
| AddTaskCard.AddTaskCard.SetPriority | src/components/shared/AddTaskCard.tsx:110 | sets the priority only |
| AddTaskCard.AddTaskCard.SetSectionId | src/components/shared/AddTaskCard.tsx:126 | sets the section only |
| AddTaskCard.AddTaskCard.Submit | src/components/shared/AddTaskCard.tsx:73-88 | the payload of the current fields, always valid for `create` |
| AddTaskCard.AddTaskCard.Add | src/components/shared/AddTaskCard.tsx:45-88 | when sent, the task is created and the two texts are cleared while due date, priority and section are kept; otherwise nothing changes |
| TaskModal.DescriptionText | src/components/TaskModal.tsx:44 | the description, or empty when there is none |
| TaskModal.CompleteRequest | src/components/TaskModal.tsx:118-121 | the request always completes |
| TaskModal.CompleteOnlyCompletes | src/components/TaskModal.tsx:118-121 | applied, it sets `complete` and nothing else |
| TaskModal.CompleteIdempotent | src/components/TaskModal.tsx:118-121 | completing twice equals completing once |
| TaskModal.TextAndDescriptionRequest | src/components/TaskModal.tsx:113-116 | the request carries the edited text and description |
| TaskModal.SaveReplacesBoth | src/components/TaskModal.tsx:113-116 | applied, it replaces both texts and nothing else |
| TaskModal.UneditedSaveFillsDescription | src/components/TaskModal.tsx:42-45 | saving without edits changes nothing, except that a missing description becomes empty |
| TaskModal.SubTaskDragEnd | src/components/TaskModal.tsx:162-169 | the i-th child gets position i and the parent's section |
| TaskModal.SubTaskLandsUnderParent | src/components/TaskModal.tsx:310-316 | a sub-task from the dialog's form lands under the parent, in its section, after its children |
| TaskModal.TaskModal.constructor | src/components/TaskModal.tsx:29-36 | not editing, empty texts, closed form, expanded, no sub-tasks |
| TaskModal.TaskModal.Sync | src/components/TaskModal.tsx:42-45 | the edited texts restart from the task |
| TaskModal.TaskModal.SetTarget | src/components/TaskModal.tsx:251-271 | sets the editing target and keeps the edited texts |
| TaskModal.TaskModal.SetText | src/components/TaskModal.tsx:237 | sets the edited text only |
| TaskModal.TaskModal.SetDescription | src/components/TaskModal.tsx:243 | sets the edited description only |
| TaskModal.TaskModal.Save | src/components/TaskModal.tsx:113-116 | sends the edited texts and stops editing |
| TaskModal.TaskModal.ResetSubTasks | src/components/TaskModal.tsx:172-176 | the draggable list follows the children when they are loaded |
| TaskModal.TaskModal.ToggleCollapsed | src/components/TaskModal.tsx:283 | flips the collapsed flag only |
| TaskModal.TaskModal.OpenSubTaskCard | src/components/TaskModal.tsx:309-320 | toggles the sub-task form, opened in the task's section under the task |
| TaskModal.TaskModal.CloseSubTaskCard | src/components/TaskModal.tsx:315 | toggles the form shut |
| SectionPicker.InboxOf | src/components/shared/SectionPicker.tsx:25-49 | the Inbox choice exists iff the first Inbox has an `Uncategorized` section, and it names that section |
| SectionPicker.SectionLabel | src/components/shared/SectionPicker.tsx:86-101 | the label names the collection, and the section unless it is `Uncategorized` |
| SectionPicker.LastContaining | src/components/shared/SectionPicker.tsx:64-73 | the last collection holding the section, since the `forEach` does not stop at a match |
| SectionPicker.Reported | src/components/shared/SectionPicker.tsx:103-108 | `setValue` is called iff the picked id differs from the incoming value, and with that id |
| SectionPicker.WaitsForCollectionsAndInbox | src/components/shared/SectionPicker.tsx:52 | nothing resolves before collections and inbox are both there |
| SectionPicker.DefaultsToInbox | src/components/shared/SectionPicker.tsx:55-62 | no value, an empty one or `today` resolves to the Inbox |
| SectionPicker.LastContainingIsTheContaining | src/components/shared/SectionPicker.tsx:64-73 | with unique section ids, the collection found is the one holding the section |
| SectionPicker.ReadAllSectionIdsUnique | src/integrations/trpc/routers/collection.ts:5-35 | `readAll` never lists a section id twice |
| SectionPicker.InboxSectionsCollapse | src/components/shared/SectionPicker.tsx:81-84 | any section of the Inbox resolves to Inbox/Uncategorized |
| SectionPicker.OtherCollectionKeepsId | src/components/shared/SectionPicker.tsx:86-101 | a section of another collection resolves to itself, with its label |
| SectionPicker.UnknownUnchanged | src/components/shared/SectionPicker.tsx:74-79 | an unknown section id resolves to nothing, so the picker keeps its value |
| SectionPicker.Settles | src/components/shared/SectionPicker.tsx:103-108 | once the value is reported back, resolving it again reports nothing |
| SectionPicker.RowRehomesInboxTask | src/components/shared/TaskListRow.tsx:99-106 | rendering the row of a top-level task that lies in another Inbox section sends an update that moves the task to Inbox/Uncategorized, whether or not the row's copy carries the description |
| SectionPicker.EntriesMembers | src/components/shared/SectionPicker.tsx:130-168 | the menu entries are exactly the sections of collections other than the Inbox |
| SectionPicker.MenuListsInboxOnce | src/components/shared/SectionPicker.tsx:121-170 | the Inbox is offered once, first; every other entry is a section of another collection |
| SectionPicker.SectionPicker.constructor | src/components/shared/SectionPicker.tsx:20-24 | no inbox and nothing picked |
| SectionPicker.SectionPicker.DiscoverInbox | src/components/shared/SectionPicker.tsx:25-49 | while no Inbox choice is set, each arrival of the collections looks up the Inbox's Uncategorized section; once found the choice is never replaced, and the pick is untouched |
| SectionPicker.SectionPicker.Resolve | src/components/shared/SectionPicker.tsx:50-102 | the picked value becomes the resolution when there is one; otherwise it is kept |
| SectionPicker.SectionPicker.Pick | src/components/shared/SectionPicker.tsx:121-161 | a click picks the entry |
| SectionPicker.SectionPicker.Report | src/components/shared/SectionPicker.tsx:103-108 | reports the picked id when it differs from the value |
| CollectionAndSectionPicker.InboxPair | src/components/shared/CollectionAndSectionPicker.tsx:29-49 | an error when collections are absent, Inbox is missing, or Inbox has no `Uncategorized`; otherwise that pair |
| CollectionAndSectionPicker.InboxAgreesWithSectionPicker | src/components/shared/CollectionAndSectionPicker.tsx:30-47 | both pickers find the same Inbox section, or neither does |
| CollectionAndSectionPicker.DefaultsToCurrentSection | src/components/shared/CollectionAndSectionPicker.tsx:52-71 | a non-Inbox collection holding the current section selects that pair, labelled with both names |
| CollectionAndSectionPicker.MissingSectionLeavesSelection | src/components/shared/CollectionAndSectionPicker.tsx:72-74 | a non-Inbox collection without the section leaves the selection unchanged |
| CollectionAndSectionPicker.OtherwiseInbox | src/components/shared/CollectionAndSectionPicker.tsx:75-89 | a missing or Inbox collection selects the Inbox pair, or keeps the selection while there is none |
| CollectionAndSectionPicker.MenuListsInboxOnce | src/components/shared/CollectionAndSectionPicker.tsx:104-155 | the Inbox is offered once, first; every other entry belongs to a non-Inbox collection |
| CollectionAndSectionPicker.CollectionSectionPicker.constructor | src/components/shared/CollectionAndSectionPicker.tsx:26 | no inbox yet, and the selection the parent holds |
| CollectionAndSectionPicker.CollectionSectionPicker.DiscoverInbox | src/components/shared/CollectionAndSectionPicker.tsx:29-49 | the pair is stored, or the error is returned with nothing changed |
| CollectionAndSectionPicker.CollectionSectionPicker.SelectDefault | src/components/shared/CollectionAndSectionPicker.tsx:50-90 | the selection becomes the default when there is one; otherwise it is kept |
| CollectionAndSectionPicker.CollectionSectionPicker.Pick | src/components/shared/CollectionAndSectionPicker.tsx:104-146 | a click selects the entry |

## Left out

- Foreign keys and cascades live in the Prisma schema, which is not part of this model. A delete removes one row. Creating a row whose section, task or parent does not exist is not rejected, and neither is an update or reorder that moves a task to a section that does not exist (`CollectionView.DropOnUpcomingOrphans`).
- TaskListRow.AsUpdate: the row's copy of a task is modelled as a full row, as `readOne` and `task.today` return it. The Inbox page passes tasks that carry only their text (src/routes/inbox.tsx:16-21, src/integrations/trpc/routers/collection.ts:110-114). Their updates, reorders and deletes carry no id and fail validation (src/integrations/trpc/routers/task.ts:97, 127, 140); that path is not modelled.
- Id generation (cuid), the clock and the database connection are outside the model. Ids and `now`/`today` are parameters.
- Concurrency: a `$transaction` is modelled as a sequential, all-or-nothing batch, not as isolation between concurrent requests.
- React Query caching and `invalidateQueries`, hook scheduling, focus effects, the drag-and-drop and animation libraries, and JSX rendering are not modelled. Drag-end payloads are modelled from the ids in drop order.
- Date formatting (`format` of day titles and relative dates) is kept only as an opaque title. The Calendar view of the collection page, the date picker's quick dates and the priority picker's constant table are not modelled.
- Time zones are not modelled: days are UTC days.
- Positions are `int`, while every router's schema accepts any `z.number()`. The modelled clients only send indexes and counts, so fractional positions are never produced; a fractional position sent by another client is not modelled.
- AddTaskCard.Trim: the white-space set is the ECMAScript one written out. Unicode categories beyond that list are not modelled.
- `section.update` and `section.reoder` are commented out in the section router (src/integrations/trpc/routers/section.ts:60-78, 92-107). The collection page calls them (src/components/CollectionView.tsx:61, 396), but those calls have no handler, so they are not modelled.
- The `checklistItem` router is modelled, although src/integrations/trpc/router.ts:13-18 does not mount it.
- CollectionAndSectionPicker is rendered by none of the modelled files. Its rules are modelled on their own.
- The second task dialog, src/components/shared/TaskModal.tsx, is imported by none of the modelled files, and its handlers repeat those of src/components/TaskModal.tsx. It is not modelled separately.
- The Today page, the side navigation, `people` and the UI primitives are not part of this model.
- Ordering.SortSet: rows with equal sort keys come out in an unspecified order, since the database's tie order is not known.
- CollectionRouter.ReadOne and CollectionRouter.ReadAll state each row's content and order but not how Prisma shapes its JSON.
- The text order is a lexicographic order on character codes. Database collation is not modelled.

Quirks kept as written:

- The first sub-task gets position 1 (`TaskRouter.SubTaskPositions`).
- A sub-task also takes a top-level slot of its section (`TaskRouter.SubTaskTakesSectionSlot`).
- Overdue's count counts every fetched task (`Upcoming.OverdueCountCountsAll`).
- A new collection's position is the collection count plus one, so after a delete it can repeat a stored position (`CollectionRouter.CreateAfterDeleteRepeatsPosition`).
- `today` excludes the last millisecond of the day (`TaskRouter.DueTodayIff`).
- `readOne` lists sub-tasks among a section's tasks, and the page filters them out (`CollectionView.DraggableAreOpenTopLevel`).
- The section picker takes the last collection holding a section (`SectionPicker.LastContaining`).
- The picker rewrites every Inbox section to Inbox/Uncategorized, so a row for such a task reports a move (`SectionPicker.RowRehomesInboxTask`).
- Cancel in the task dialog keeps the edited texts (`TaskModal.TaskModal.SetTarget`).
- Texts are not trimmed when sent (`AddTaskCard.Payload`).
- The drag handle is hidden by collection id, and section dragging is disabled by collection name (`CollectionView.UpcomingPageIsFixed`).

## Findings

| source | as written | input that shows it | evidently intended | confidence | as-written member | corrected member |
|---|---|---|---|---|---|---|
| src/routes/upcoming.tsx:25-29 | `nextSaturday` of a Saturday is the following Saturday, so the window runs over two weeks | today = 1970-01-03 (timestamp 172800000), a Saturday: 14 days are listed | a Sunday-to-Saturday week containing today | not executed | Upcoming.SaturdayWindowSpansTwoWeeks | Upcoming.WindowIsWeek |
| src/components/CollectionView.tsx:188-193 | the rename sends `{...collection, name}`, and `readOne`'s collection has no `position`, which `update` requires (src/integrations/trpc/routers/collection.ts:159) | any rename of any collection | the request carries the stored position, so the name changes | not executed | CollectionView.RenameAsWrittenIsRejected | CollectionView.RenameChangesOnlyName |
| src/routes/upcoming.tsx:32 | the week view is fed the `task.today` query | there is a task due tomorrow inside the window: its day bucket stays empty, and Overdue is always empty | fed the `task.upcoming` query (all tasks) | not executed | Upcoming.TodayFeedShowsOnlyToday | Upcoming.UpcomingFeedShowsWeek |
| src/components/CollectionView.tsx:372-384 | the container's label is sent as `sectionId` unchecked, and task rows keep their drag handle on the Upcoming page (src/components/shared/TaskListRow.tsx:67), whose sections are `Overdue` and day timestamps | dragging a stored task into Overdue on the Upcoming page: the batch commits with `sectionId` `Overdue`, which names no stored section | drops only into stored sections | not executed; the schema's foreign keys, not part of this model, may reject the batch instead | CollectionView.DropOnUpcomingOrphans | CollectionView.StoredDropKeepsSectionsExist |
