# Task list state machine

A model of the task list behind a browser to-do page (`script.js`): an ordered
list of task records `{id, text, completed, createdAt}`, a filter
(all / active / completed), and the intents the page turns into changes on that
list. These intents are: add, tick or untick a checkbox, commit or cancel an
edit, delete, clear completed, change filter, and import a JSON array. The
derived views the page paints are modelled too: the visible subset, the two
counters and the "everything is done" celebration condition.

Layout, one module per component:

- `values.dfy` (`Values`): the non-null JavaScript values a field can hold, with `??` (`Option.OrElse`) and `!!` (`Truthy`).
- `text.dfy` (`Text`): `String.prototype.trim` with ECMAScript's white-space set, and `slice(0, n)`.
- `seqs.dfy` (`Seqs`): `Array.prototype.filter` (`Keep`) and order preservation (`IsSubsequence`).
- `tasks.dfy` (`Tasks`): records, the saved or exported form (`Export`), delete-by-id (`Without`), filters, `Visible`, `Counts`, `ShouldCelebrate`.
- `import.dfy` (`Import`): the per-element normaliser of the import handler, and the export/import round trip.
- `store.dfy` (`Store`): class `TaskStore` with the module-level `tasks` and `filter` as fields and one method per intent.

Records are objects that the handlers mutate in place. Every `Task` therefore
carries an identity `ref`, which is not saved. Handlers hold the object itself:
the checkbox and text edits act on one object. `deleteTask` filters by `id`
with `!==`, so it removes every record carrying that id. Ids can repeat
(`Date.now()` twice in one millisecond, or an imported file), so the two kinds
of target differ. `TaskStore.Valid()` says no object appears twice in the list
and every identity is below the allocation counter `nextRef`.

Persistence is modelled as two ghost fields: the snapshot the last
`saveTasks` wrote (`saved`) and the number of writes (`saves`). Every method
states both.

External inputs become parameters:

- `Date.now()`, `Date.now() + Math.random()` and `new Date().toISOString()`.
- The answer to `confirm`.
- The text the user typed or edited.
- The import file after it has been read and parsed (`ImportDoc`: no file,
  unreadable or unparseable, not an array, or an array of `Item`s).

Some of the page's behaviour differs from what a reader might expect; the model follows the code:

- Escape pressed as the first key after the edit button was clicked is not a side-effect-free cancel. It puts `t.text`
  back into the element and then runs the same `endEdit`. So a completed
  record is reopened and saved, an imported record with surrounding spaces
  gets its text trimmed, and a record with blank text is offered for
  deletion (`CancelEdit`).
- The checkbox sets `completed` to the checkbox's state rather than flipping it.
- A confirmed delete saves even when no record carries the id.
- A filter name other than "all" and "active" is not rejected: `render` treats it as "completed" (`FilterOf`).
- Import does not normalise every element. A `null` element makes `t.id` throw, and so does a `text` that `String(...)` cannot convert, such as `{"toString": 0}`. Either way the whole import fails with "Couldn't import that file." and the list stays unchanged.
- Ids are not guaranteed unique. No contract claims they are.
- Only the checkbox handler runs the celebration check.

## Model

| member | source | states |
|---|---|---|
| Values.Option.OrElse | script.js:190 | `v ?? d` is the value when there is one and the default otherwise |
| Values.FalsyValues | script.js:192 | `!!v` (`Truthy`) is false exactly for `0`, `""` and `false`, and true for every other value, objects and arrays included |
| Text.Trim | script.js:117 | the trimmed text neither starts nor ends with white space and is no longer than the input |
| Text.SkipSpacesSkipsSpaces | script.js:117 | every character the leading scan steps over is white space |
| Text.BackSpacesSkipsSpaces | script.js:117 | every character the trailing scan steps over is white space |
| Text.TrimIsStretch | script.js:117 | the trimmed text is one contiguous stretch of the input with only white space cut off before and after it |
| Text.TrimEmptyIff | script.js:117-118 | trimming gives the empty text exactly when the input is all white space, which is when a task is refused |
| Text.TrimOfTrimmed | script.js:85-94 | trimming a text that neither starts nor ends with white space gives it back unchanged |
| Text.TrimIdempotent | script.js:85-94 | trimming twice gives the same text as trimming once |
| Text.Truncate | script.js:191 | the result has at most n characters, is a prefix of the input, and is the whole input when it fits |
| Seqs.Keep | script.js:37 | filtering keeps exactly the elements satisfying the predicate, adds none, and keeps all when all satisfy it |
| Seqs.KeepIsSubsequence | script.js:37 | a filtered list is a subsequence of the original: order is preserved |
| Seqs.KeepMultiplicity | script.js:37 | filtering keeps every copy of an element that passes and no copy of one that fails |
| Seqs.KeepAppend | script.js:123 | filtering after appending one element extends the filtered list by that element exactly when it passes |
| Tasks.Export | script.js:28 | the saved or exported document has one record per task, with the task's four fields, in list order |
| Tasks.Attach | script.js:189 | records placed in the list get distinct fresh identities and save back to the same records |
| Tasks.AttachAllocated | script.js:189 | the record objects of an imported list are distinct and take exactly the next identities in turn |
| Tasks.Without | script.js:133 | deletion by id removes exactly the records carrying the id, keeps the rest in order, and leaves a list without the id unchanged |
| Tasks.KeepUniqueRefs | script.js:133 | filtering never makes a record object appear twice |
| Tasks.Ticked | script.js:54 | setting the checkbox state on one record object gives that object the new flag and leaves every other record, and the length, as they were |
| Tasks.Reworded | script.js:96-97 | committing an edit on one record object gives it the new text and reopens it, keeping its id and timestamp, and leaves every other record as it was |
| Tasks.FilterOf | script.js:37 | "all" selects every record, "active" the open ones, and every other name behaves like "completed" |
| Tasks.Visible | script.js:37 | the visible list is every record for all, exactly the open records for active, exactly the done ones for completed, always a subsequence of the list |
| Tasks.VisiblePartition | script.js:139-141 | the done view and the open view together have as many records as the list |
| Tasks.VisibleAppend | script.js:37 | the visible list after appending a record is the old visible list plus that record when it passes the filter |
| Tasks.Counts | script.js:139-141 | the done counter is the number of done records, the open counter the number of open records, and they add up to the list's length |
| Tasks.CountsAfterAppendOpen | script.js:123 | appending an open record raises the open counter by one and keeps the done counter |
| Tasks.CelebrateIffNoneOpen | script.js:155 | the celebration condition `ShouldCelebrate` holds exactly when the list is non-empty and the open counter is zero (equivalently every record is done); never for the empty list |
| Import.Normalize | script.js:189-194 | a null element or an unconvertible text throws; otherwise a supplied id and timestamp are kept and missing ones are the fresh values, the text has at most 120 characters and is a prefix of the supplied text (all of it when it fits, empty when absent), and completed holds exactly when a truthy value was supplied |
| Import.ImportRecords | script.js:189-194 | mapping an array fails exactly when some element is null or has a text that cannot be converted to a string; otherwise it yields one record per element, element by element as the normaliser gives |
| Import.Reread | script.js:187 | parsing an exported document of records with primitive ids and timestamps gives one element per record, with its four fields, none of which throws on import |
| Import.ExportImportRoundTrip | script.js:187-194 | importing an exported list gives back the same records whenever every text fits in 120 characters and ids and timestamps are primitives |
| Import.LongTextDoesNotRoundTrip | script.js:191 | a record with a primitive id and timestamp whose text exceeds 120 characters comes back from export and import with only its first 120 characters |
| Store.TaskStore.constructor | script.js:14-15 | at start the list is the loaded records as distinct objects and the filter is all |
| Store.TaskStore.Save | script.js:26-30 | the whole list, in its saved form, is what `saveTasks` writes, or tries to write, to storage |
| Store.TaskStore.Add | script.js:116-129 | blank input changes nothing and saves nothing; otherwise exactly one open record with the trimmed text and the fresh id and timestamp is appended, earlier records are unchanged, the list is saved and the filter becomes all |
| Store.TaskStore.SetCompleted | script.js:53-59 | the ticked record's completed flag becomes the checkbox state, every other record is unchanged, the list is saved, and the result is the celebration condition of the new list |
| Store.TaskStore.Delete | script.js:131-137 | when confirmed the list becomes the list without the id and is saved; when not confirmed nothing changes |
| Store.TaskStore.CommitEdit | script.js:92-104 | non-blank content, trimmed, becomes the record's text, the record is reopened, its id and timestamp kept, others untouched, and the list saved; blank content is a delete of the record's id |
| Store.TaskStore.CancelEdit | script.js:84-104 | Escape as the first key of an edit on a record with non-blank text trims that text into the record, reopens it and saves; when the text was already trimmed this only reopens the record; on a blank record it is a delete of its id |
| Store.TaskStore.ClearCompleted | script.js:165-169 | afterwards no record is done and every open record is still there in the same order; storage is written exactly when some record was done |
| Store.TaskStore.SetFilter | script.js:164 | the filter becomes the one the chip's name selects |
| Store.ImportOutcomeOf | script.js:182-205 | no file is ignored, a non-array is an invalid format, an unreadable or unparseable file or an array with an element that throws cannot be imported, and only an array that maps replaces the list; each case is an if-and-only-if |
| Store.TaskStore.ImportDocument | script.js:182-205 | the outcome reported is the one the document calls for; every outcome other than a replacement leaves all state unchanged; a replacement puts one fresh record object per element in the list, as the normaliser gives, saves it and keeps the filter |

## Left out

- Rendering: clearing and refilling the list element, cloning the template, the `render` loop over the visible records, CSS classes, `contenteditable`, caret placement, the active chip and the registration of event listeners (script.js:2-12, 32-68, 70-91, 107-114, 146-152, 162-164, apart from the lines the Model table cites). These are page plumbing; what `render` shows is `Visible`, and the counters it writes are `Counts`.
- Edit-session plumbing: `beginEdit` registers a new one-shot key and blur listener each time it runs, so `endEdit` can run more than once for one edit. Each run is one `CommitEdit`. The key listener is also one-shot: any key uses it up, so after the first key Enter and Escape do nothing and the edit ends on blur, committing the typed text. Which handler runs therefore depends on the key sequence, which the model does not track: `CancelEdit` is the Escape branch when Escape is that first key, and `CommitEdit` is every other way an edit ends. A record deleted or replaced meanwhile is covered because the methods act on the record's identity and do nothing to an object no longer in the list.
- `localStorage` and JSON (script.js:17-30): reading the slot, `JSON.parse` and `JSON.stringify`, and a failing write. The constructor receives the list `loadTasks` produced. A stored value that parses to something other than an array is not modelled. `saved` is what `saveTasks` tried to write.
- `Date.now()`, `Math.random()` and `toISOString()`: their values are parameters. Nothing is claimed about ids being unique or increasing.
- `confirm`, `alert`, the confetti timer and the asynchronous `file.text()` read: the confirmation is a parameter, the alert is the returned `ImportOutcome`, the celebration is the returned boolean of `SetCompleted`, and the read is part of `ImportDoc`.
- Export's Blob, object URL and download link (script.js:171-179): I/O. The exported content is `Export(tasks)`.
- Import.Normalize: the `String(...)` conversion of a text is not computed. `Item.text` holds either its result (`Converts`) or the fact that it throws (`Unconvertible`), so which objects convert and to what is an input.
- Text.Truncate: text is a sequence of Unicode characters, so `slice(0, 120)` counts characters, whereas JavaScript counts UTF-16 code units.
- Import.ExportImportRoundTrip: only records with primitive ids and timestamps are covered (also by `Import.Reread` and `Import.LongTextDoesNotRoundTrip`), because `JSON.parse` builds new objects and an object id would come back as a different object under `===`.
