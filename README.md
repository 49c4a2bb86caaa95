# Security Notes, modelled in Dafny

This project models the core of the Security Notes editor extension.

- **Breadcrumb trail store.** A table of investigation trails in insertion order. Each trail holds an ordered list of crumbs, and one trail may be the active one.
- **Legacy breadcrumbs and their controller.** A labelled breadcrumb keeps its points stably sorted by ordinal. The controller keeps the breadcrumbs in a table keyed by id.
- **Notes.** A note is a comment thread on a range of a file. The model covers:
  - the comment constructor with its global id counter;
  - adding a comment to a thread;
  - the `[<status>] ` prefix on a note's first comment;
  - toggling reactions;
  - the delete, edit, cancel and save commands;
  - placing loaded threads into the note map.
- **Persistence formats.**
  - The trail file.
  - The legacy breadcrumb file.
  - The current note format, with workspace-relative paths and the thread key.
  - The legacy note format.

  Files are written as records and read back; round trips are proved for each format.
- **Exporters.**
  - The Markdown export of a trail, with its default file name.
  - The HTML and Mermaid export of breadcrumbs, with HTML escaping and file names.
  - The Markdown export of notes, with the status filter and the comment text.
- **Report adapters.** Importers turn an already-parsed SARIF, Bandit, gosec, Brakeman, Checkov or Semgrep report into findings. A report is a JSON tree. Every adapter except Semgrep stops at the first entry that throws and keeps the findings gathered before it. Semgrep has no `try`, so that entry makes the whole call fail.
- **Path helpers.** Separator rewriting, and conversion between workspace-relative and full paths.

JavaScript values are mapped into the model as follows:

- **Maps.** A JavaScript `Map` is `OrderedMap.OMap`: a key sequence plus a finite map. Setting an existing key keeps its place.
- **Editor objects.** The objects the code mutates in place are classes whose methods carry `modifies` clauses. These are comments, threads, breadcrumbs, the store and the controller.
- **Records.** Stored records, findings and the exported text are datatypes and functions.
- **Loops.** Where the source loops and pushes, the model has a `method` with a `while` loop. Each such method is proved equal to a specification function, and the properties are lemmas about that function.
- **Throwing.** A JavaScript operation that can throw yields `Result`, which is `Ok(value)` or `Fault`.
- **Ranges.** An editor range is four naturals. Building one with a negative coordinate is a `Fault`, because `vscode.Position` throws on a negative line or character.
- **Outside input.** Fresh ids, clock readings, the date format, the platform, the workspace folder, the extension's install path and the text of editor documents are all parameters.

## Model

| member | source | states |
|---|---|---|
| TrailStore.Keyed | src/breadcrumbs/store.ts:49-53 | the table built from a trail list holds every trail under its own id, a later duplicate id replacing the earlier one |
| TrailStore.WithCrumbsInOrder | src/breadcrumbs/store.ts:142 | crumbs added one after another follow the old crumbs in call order, so N additions to an empty trail leave exactly N crumbs; nothing but the crumbs and the update time changes |
| TrailStore.FindCrumb | src/breadcrumbs/store.ts:153 | the index of the first crumb with the id, or -1 exactly when no crumb has it |
| TrailStore.WithoutCrumb | src/breadcrumbs/store.ts:170 | the crumbs without the id, each other crumb kept; the length is unchanged exactly when no crumb had the id, and then the list is unchanged |
| TrailStore.BreadcrumbStore.constructor | src/breadcrumbs/store.ts:33-35 | a new store has no trails and no active trail |
| TrailStore.BreadcrumbStore.GetState | src/breadcrumbs/store.ts:41-46 | the snapshot lists the stored trails in insertion order with the active id as stored, and re-keying it gives the table back |
| TrailStore.BreadcrumbStore.ReplaceState | src/breadcrumbs/store.ts:48-56 | the table becomes the snapshot's trails keyed by id (later duplicates win) and the active id is copied verbatim; one change event |
| TrailStore.BreadcrumbStore.GetTrails | src/breadcrumbs/store.ts:58-62 | every stored trail exactly once (a permutation of the table's values), in non-increasing update time, ties in insertion order |
| TrailStore.BreadcrumbStore.GetTrail | src/breadcrumbs/store.ts:64-67 | the trail stored under the id, or nothing exactly when the id is not stored |
| TrailStore.BreadcrumbStore.GetActiveTrail | src/breadcrumbs/store.ts:69-74 | nothing exactly when the active id is unset, empty, or names no stored trail; otherwise that trail |
| TrailStore.BreadcrumbStore.SetActiveTrail | src/breadcrumbs/store.ts:76-79 | the id is stored without checking it; the trails are unchanged; one change event |
| TrailStore.BreadcrumbStore.CreateTrail | src/breadcrumbs/store.ts:81-98 | a trail with the fresh id, the name and description, no crumbs and created == updated is added; it becomes active unless setActive is false |
| TrailStore.BreadcrumbStore.RenameTrail | src/breadcrumbs/store.ts:100-109 | name and description are replaced and the update time bumped, keeping the trail's position; an unknown id changes nothing and fires nothing |
| TrailStore.BreadcrumbStore.DeleteTrail | src/breadcrumbs/store.ts:111-120 | an unknown id does nothing; deleting the active trail makes the first remaining key active or none when no trail is left; deleting another trail keeps the active id |
| TrailStore.BreadcrumbStore.AddCrumb | src/breadcrumbs/store.ts:122-146 | on an unknown trail returns nothing and changes nothing; otherwise the crumbs become the old crumbs plus one new crumb at the end carrying the trail id and the note |
| TrailStore.BreadcrumbStore.UpdateCrumbNote | src/breadcrumbs/store.ts:148-163 | only the note of the first crumb with the id changes, count and order kept; an unknown trail or crumb is a no-op with no event and no update-time bump |
| TrailStore.BreadcrumbStore.RemoveCrumb | src/breadcrumbs/store.ts:165-177 | every crumb with the id is dropped and the rest keep their order; when nothing matched, nothing changes and nothing fires |
| StableSort.SortByPermutes | src/models/breadcrumb.ts:27 | the ordinal sort is a permutation of its input |
| StableSort.SortBySorted | src/models/breadcrumb.ts:27 | the sort's output is in non-decreasing key order |
| StableSort.SortByStable | src/models/breadcrumb.ts:27 | elements with equal keys keep their relative order (the sort is stable) |
| StableSort.SortBySortedIdentity | src/models/breadcrumb.ts:27 | an already sorted list is left as it is |
| LegacyBreadcrumbs.WithoutPoint | src/models/breadcrumb.ts:31 | the points without the id, every other point kept; the length is unchanged exactly when no point had the id, and then the list is unchanged |
| LegacyBreadcrumbs.AddedPointSpec | src/models/breadcrumb.ts:24-28 | adding a point grows the list by exactly one, gives a permutation of the old points plus the new one, sorted by non-decreasing ordinal, and points of equal ordinal keep insertion order |
| LegacyBreadcrumbs.AddedPointInserts | src/models/breadcrumb.ts:25-27 | on sorted points, push-then-sort inserts the new point after every point whose ordinal is not greater |
| LegacyBreadcrumbs.AddedPointsSort | src/models/breadcrumb.ts:25-27 | adding one point to sorted points equals sorting all points at once |
| LegacyBreadcrumbs.AddedPointLast | src/models/breadcrumb.ts:25-27 | a point whose ordinal is at least every other ordinal goes to the end |
| LegacyBreadcrumbs.WithoutPointSorted | src/models/breadcrumb.ts:30-32 | removing points keeps sorted points sorted |
| LegacyBreadcrumbs.Breadcrumb.constructor | src/models/breadcrumb.ts:14-22 | a new breadcrumb has the given id and label and no points |
| LegacyBreadcrumbs.Breadcrumb.AddPoint | src/models/breadcrumb.ts:24-28 | the points become the old points plus the new one, stably sorted by ordinal; the label is untouched |
| LegacyBreadcrumbs.Breadcrumb.RemovePoint | src/models/breadcrumb.ts:30-32 | every point with the id is removed, the rest keep their order; the label is untouched |
| LegacyBreadcrumbs.Breadcrumb.UpdateLabel | src/models/breadcrumb.ts:34-36 | only the label changes; the points are untouched |
| BreadcrumbsControl.Tagged | src/controllers/breadcrumbs.ts:97-101 | exactly the breadcrumbs having a point with the tag, each taken from the list |
| BreadcrumbsControl.TaggedAppend | src/controllers/breadcrumbs.ts:98-100 | filtering distributes over concatenation, so the matches keep the order of the list |
| BreadcrumbsControl.ConsecutiveAdd | src/controllers/breadcrumbs.ts:50-59 | a point whose ordinal is the current count goes to the end, so n additions to an empty breadcrumb give ordinals 0..n-1 in call order |
| BreadcrumbsControl.BreadcrumbsController.constructor | src/controllers/breadcrumbs.ts:8-12 | a new controller holds no breadcrumbs |
| BreadcrumbsControl.BreadcrumbsController.CreateBreadcrumb | src/controllers/breadcrumbs.ts:15-20 | a new breadcrumb under the fresh id, with the label and no points, is stored and returned |
| BreadcrumbsControl.BreadcrumbsController.GetBreadcrumb | src/controllers/breadcrumbs.ts:23-25 | the breadcrumb stored under the id, or nothing exactly when the id is unknown |
| BreadcrumbsControl.BreadcrumbsController.GetAllBreadcrumbs | src/controllers/breadcrumbs.ts:28-30 | every stored breadcrumb once, in insertion order |
| BreadcrumbsControl.BreadcrumbsController.DeleteBreadcrumb | src/controllers/breadcrumbs.ts:33-35 | returns true exactly when the id existed; the entry is removed and an unknown id changes nothing |
| BreadcrumbsControl.BreadcrumbsController.AddPointToBreadcrumb | src/controllers/breadcrumbs.ts:38-61 | on an unknown id returns nothing and changes nothing; otherwise a point with ordinal equal to the old point count is added through addPoint; other breadcrumbs are untouched |
| BreadcrumbsControl.BreadcrumbsController.RemovePoint | src/controllers/breadcrumbs.ts:64-73 | false for an unknown breadcrumb; otherwise true exactly when the point count decreased, which is exactly when some point had the id |
| BreadcrumbsControl.BreadcrumbsController.UpdateBreadcrumbLabel | src/controllers/breadcrumbs.ts:76-84 | true exactly when the breadcrumb exists, and then only its label changes |
| BreadcrumbsControl.BreadcrumbsController.GetPointsForBreadcrumb | src/controllers/breadcrumbs.ts:87-94 | a copy equal to the breadcrumb's points, or [] for an unknown id |
| BreadcrumbsControl.BreadcrumbsController.FindBreadcrumbsByTag | src/controllers/breadcrumbs.ts:97-101 | exactly the stored breadcrumbs with a point of that tag, in map order (`TaggedAppend` states that the filter keeps that order) |
| Format.FormatRangeLabel | src/breadcrumbs/format.ts:5-12 | `L<s>` with 1-based start line when the lines are equal, otherwise `L<s>-L<e>`; a '-' appears exactly when the lines differ |
| Format.LabelStart | src/breadcrumbs/format.ts:5-12 | the text between `L` and the first '-' is the 1-based start line |
| Format.LabelEnd | src/breadcrumbs/format.ts:11 | the text after `L<s>-L` of a two-line label is the 1-based end line |
| Format.RangeLabelInjective | src/breadcrumbs/format.ts:5-12 | equal labels come from ranges with equal start and end lines |
| Format.SnippetPreview | src/breadcrumbs/format.ts:14-21 | `(empty selection)` for an empty or whitespace-only snippet; otherwise the trimmed first line of the trimmed snippet, cut to maxLength-3 characters plus `...` when longer than maxLength, so never longer than maxLength when maxLength >= 3 |
| Format.FirstLineOfText | src/breadcrumbs/format.ts:19 | a snippet with some text has a non-empty first line without a line break |
| Format.PreviewOfText | src/breadcrumbs/format.ts:19-20 | a snippet with some text gives a non-empty one-line preview |
| TrailFile.DeserializeRange | src/persistence/local-db/breadcrumbs.ts:49-50 | a stored range is read back exactly when all four coordinates are non-negative, and the range read writes back to the same record |
| TrailFile.DeserializeCrumb | src/persistence/local-db/breadcrumbs.ts:62-70 | a stored crumb is read back exactly when its range is |
| TrailFile.SerializeCrumbs | src/persistence/local-db/breadcrumbs.ts:78 | one record per crumb, in order |
| TrailFile.DeserializeCrumbs | src/persistence/local-db/breadcrumbs.ts:87 | succeeds exactly when every record reads, then one crumb per record in order |
| TrailFile.DeserializeTrail | src/persistence/local-db/breadcrumbs.ts:81-88 | a stored trail is read back exactly when all its crumbs are |
| TrailFile.SerializeTrails | src/persistence/local-db/breadcrumbs.ts:97 | one record per trail, in order |
| TrailFile.DeserializeTrails | src/persistence/local-db/breadcrumbs.ts:112 | succeeds exactly when every trail reads, then one trail per record in order |
| TrailFile.DeserializeState | src/persistence/local-db/breadcrumbs.ts:110-113 | the active id is copied unchanged and there is one trail per record |
| TrailFile.RangeRoundTrip | src/persistence/local-db/breadcrumbs.ts:42-50 | reading a written range gives it back with all four coordinates |
| TrailFile.CrumbRoundTrip | src/persistence/local-db/breadcrumbs.ts:52-70 | a crumb inside the workspace is read back unchanged: id, trail id, path, range, snippet, note and creation time |
| TrailFile.PersistedCrumbRoundTrip | src/persistence/local-db/breadcrumbs.ts:52-70 | a record that reads writes back to the same record |
| TrailFile.TrailRoundTrip | src/persistence/local-db/breadcrumbs.ts:72-88 | a trail whose crumbs are inside the workspace is read back unchanged, crumbs in count and order |
| TrailFile.StateRoundTrip | src/persistence/local-db/breadcrumbs.ts:95-113 | a whole state is read back unchanged, the active id included |
| TrailFile.SaveBreadcrumbs | src/persistence/local-db/breadcrumbs.ts:90-100 | nothing is written exactly when the file is absent and there are no trails; otherwise the serialised snapshot of the store, active id copied |
| TrailFile.LoadBreadcrumbs | src/persistence/local-db/breadcrumbs.ts:102-121 | an absent file gives the empty state; a parse or read failure reports an error and gives the empty state; otherwise the deserialised state |
| TrailFile.SaveLoadRoundTrip | src/persistence/local-db/breadcrumbs.ts:90-121 | loading what was saved gives the saved state back with no error |
| BreadcrumbFile.ValuesOf | src/persistence/breadcrumbs-persistence.ts:57 | the value of each breadcrumb, in map order |
| BreadcrumbFile.SerializeValues | src/persistence/breadcrumbs-persistence.ts:57-77 | one record per breadcrumb, in order |
| BreadcrumbFile.SerializeBreadcrumbs | src/persistence/breadcrumbs-persistence.ts:56-78 | one record per breadcrumb in map order, with its id, label and point count |
| BreadcrumbFile.DecodePoint | src/persistence/breadcrumbs-persistence.ts:87-97 | a point record is read exactly when its four coordinates are non-negative |
| BreadcrumbFile.DecodeSerializedPoint | src/persistence/breadcrumbs-persistence.ts:60-97 | a written point reads back unchanged: id, tag, four coordinates, uri, ordinal and note id |
| BreadcrumbFile.DecodePointsSpec | src/persistence/breadcrumbs-persistence.ts:86-100 | the points read exactly when each record reads, one point per record in order |
| BreadcrumbFile.PointsAddedSorts | src/persistence/breadcrumbs-persistence.ts:86-100 | rebuilding through addPoint one by one sorts the points by ordinal, whatever order they were stored in |
| BreadcrumbFile.DecodeRecordsSpec | src/persistence/breadcrumbs-persistence.ts:83-103 | the records read exactly when each reads, one breadcrumb per record in order |
| BreadcrumbFile.Deserialized | src/persistence/breadcrumbs-persistence.ts:80-106 | the loaded map holds every breadcrumb under its own id (a later duplicate replaces an earlier one) |
| BreadcrumbFile.DecodeSerializedValue | src/persistence/breadcrumbs-persistence.ts:56-100 | a breadcrumb with sorted points reads back with the same label and the same points |
| BreadcrumbFile.DecodeSerializedValues | src/persistence/breadcrumbs-persistence.ts:56-103 | a list of such breadcrumbs reads back unchanged |
| BreadcrumbFile.ViewOfValues | src/persistence/breadcrumbs-persistence.ts:57 | the values of the map's objects are the objects' values in map order |
| BreadcrumbFile.SerializeRoundTrip | src/persistence/breadcrumbs-persistence.ts:56-106 | writing a map keyed by id with sorted points and reading it back gives the same map: keys, order, labels and points |
| BreadcrumbFile.DecodePointsStep | src/persistence/breadcrumbs-persistence.ts:86-100 | one more point record read and added keeps the loop state equal to the rebuilt prefix |
| BreadcrumbFile.DecodeRecordOfPoints | src/persistence/breadcrumbs-persistence.ts:84-100 | a record reads exactly when its points read, and gives the id, the label and the added points |
| BreadcrumbFile.DecodeRecordFault | src/persistence/breadcrumbs-persistence.ts:90-93 | a record with a point at a negative coordinate fails |
| BreadcrumbFile.BuildBreadcrumb | src/persistence/breadcrumbs-persistence.ts:84-100 | builds a fresh breadcrumb whose value is the decoded record, or fails exactly when the record does not decode |
| BreadcrumbFile.ViewOfPut | src/persistence/breadcrumbs-persistence.ts:102 | setting a breadcrumb in the map sets its value in the view |
| BreadcrumbFile.DeserializeBreadcrumbs | src/persistence/breadcrumbs-persistence.ts:80-106 | a map of fresh breadcrumbs keyed by id whose values are the decoded records, later duplicates replacing earlier ones; fails exactly when a record does not decode |
| BreadcrumbFile.SaveBreadcrumbs | src/persistence/breadcrumbs-persistence.ts:9-28 | with no workspace an error is reported and nothing is written; otherwise the serialised breadcrumbs go to `.security-notes-breadcrumbs.json` under the workspace |
| BreadcrumbFile.LoadBreadcrumbs | src/persistence/breadcrumbs-persistence.ts:30-53 | an empty map with no workspace, a missing file or a parse failure; otherwise the deserialised map |
| Notes.FreshReactions | src/helpers.ts:18-23 | one reaction per reaction-group entry, in group order, each with the entry's label and icon, count 0 and not reacted by the author |
| Notes.CommentCounter.constructor | src/models/noteComment.ts:5 | the module counter starts at 1, so the first comment id is 2 |
| Notes.NoteThread.constructor | src/persistence/serialization/deserializer.ts:48-65 | a new thread at the path and range, with no comments, no context value and not disposed |
| Notes.NoteComment.constructor | src/models/noteComment.ts:11-28 | id is the counter plus one and advances the counter; savedBody equals body; body, mode, author, parent, reactions and contextValue are stored as given; the timestamp is the supplied one, or the current time when none is given |
| Notes.NoteMap.constructor | src/extension.ts:28 | the note map starts empty |
| NoteHelpers.LineEnd | src/helpers.ts:58 | the length of the first line: no line terminator before it, one at it unless it is the end |
| NoteHelpers.LastClose | src/helpers.ts:58 | the last `] ` at or before a position, or -1 when there is none |
| NoteHelpers.StatusPrefixEnd | src/helpers.ts:58 | the end of the longest leading `[...] ` on the first line (the greedy `.*`), or 0 when the body has no such prefix |
| NoteHelpers.StatusPrefixMatches | src/helpers.ts:61 | a status prefix `[status] ` followed by any text is itself a match of the pattern |
| NoteHelpers.NoLaterMatch | src/helpers.ts:58 | after `[status] `, text with no `] ` on its first line gives no longer match |
| NoteHelpers.PrefixedEnd | src/helpers.ts:58-61 | then the greedy match ends exactly after the status prefix |
| NoteHelpers.UpdatedBodyPrefix | src/helpers.ts:56-62 | after updateNoteStatus the body starts with `[status] `; when the rest has no `] ` on its first line the match ends right after that prefix |
| NoteHelpers.LineEndAtLeast | src/helpers.ts:58 | a first line is at least as long as any prefix without line terminators |
| NoteHelpers.StripLeavesNoClose | src/helpers.ts:58 | what is left after stripping the greedy match has no `] ` on its first line |
| NoteHelpers.StatusTwice | src/helpers.ts:56-62 | when the stripped body has no `] ` on its first line, changing status twice equals changing it once to the second status: exactly one prefix |
| NoteHelpers.StatusChangesOnPrefixed | src/helpers.ts:56-62 | on a body that already has a status prefix, repeated status changes leave exactly one prefix |
| NoteHelpers.FirstStatusKeepsText | src/helpers.ts:56-62 | a first comment `see a[i] here` becomes `[TODO] see a[i] here` |
| NoteHelpers.GreedyMatchCutsText | src/helpers.ts:58 | when the text after a status prefix contains a later `] ` on its first line, the greedy match removes part of the user's text |
| NoteHelpers.StatusChangeCutsText | src/helpers.ts:58-61 | `[TODO] see a[i] here` changed to Vulnerable loses `see a[i] ` |
| NoteHelpers.MatchIsGreatest | src/helpers.ts:58 | a match after which no `]` follows is the greedy match |
| NoteHelpers.UpdateNoteStatus | src/helpers.ts:56-62 | the body becomes `[status] ` followed by the old body with its leading greedy `[...] ` removed |
| NoteHelpers.SaveNoteComment | src/helpers.ts:6-31 | exactly one fresh comment is appended and the existing ones are kept; it has contextValue `canDelete` exactly when the thread had comments, the given author or else the setting, fresh reactions, the next id; with firstComment the body gets the TODO prefix and the thread is pushed onto the note list once, otherwise the list is untouched |
| NoteHelpers.SetNoteStatus | src/helpers.ts:33-54 | on an empty thread it throws and nothing changes; otherwise the first comment's prefix is rewritten, its other fields kept, and a `Status changed to <status>.` comment with `canDelete` by the author setting is appended |
| Reactions.Toggled | src/handlers/reaction.ts:19-21 | the flag is negated and the count goes down by one when the author had reacted, up by one otherwise; label and icon kept |
| Reactions.ToggleTwice | src/handlers/reaction.ts:19-21 | toggling twice restores count and flag |
| Reactions.FindLabel | src/handlers/reaction.ts:17 | the index of the first reaction with the label, or -1 exactly when none has it |
| Reactions.SpliceOne | src/handlers/reaction.ts:18 | `splice(i, 1, x)` replaces slot i; with -1 on a non-empty list it replaces the last slot; on an empty list it inserts x |
| Reactions.FindLabelAt | src/handlers/reaction.ts:17 | the first reaction with the label is the one found |
| Reactions.ReactedSlot | src/handlers/reaction.ts:17-18 | only the slot of the first reaction with the label is replaced; an absent label overwrites the last reaction; a non-empty list keeps its length |
| Reactions.ReactedIdempotent | src/handlers/reaction.ts:17-22 | the same click event applied twice gives the same list as once, because the replacement is built from the event and not from the stored reaction |
| Reactions.ClickTwiceRestores | src/handlers/reaction.ts:17-22 | clicking a reaction and then clicking the toggled reaction restores the list |
| Reactions.ReactionHandler | src/handlers/reaction.ts:6-27 | without a parent nothing changes; otherwise only the comments whose id matches get a new reaction list, and the thread's comments and their order are untouched |
| CommentCommands.DropId | src/extension.ts:128-130 | the comments without the id, each other comment kept; unchanged when no comment has the id |
| CommentCommands.DropIdAppend | src/extension.ts:128-130 | the filter distributes over concatenation, so the kept comments stay in order |
| CommentCommands.DeleteNoteComment | src/extension.ts:122-135 | the comments with the id are removed, the rest kept in order; the thread is disposed when none remain; no-op without a parent |
| CommentCommands.DeleteNote | src/extension.ts:143-148 | the thread is disposed, and its contextValue key is deleted from the note map when that value is set |
| CommentCommands.EditNoteComment | src/extension.ts:201-213 | the matching comments switch to Editing, every other mode is kept; bodies are not touched |
| CommentCommands.CancelEditNoteComment | src/extension.ts:156-169 | the matching comments get their saved body back in Preview mode; the others are untouched |
| CommentCommands.Copies | src/extension.ts:188-190 | n copies of the thread, the pushes saveEdit makes |
| CommentCommands.SaveEditNoteComment | src/extension.ts:177-193 | the matching comments' savedBody becomes their body and their mode Preview; with a remote store, the parent thread is pushed once per comment of the thread |
| CommentCommands.EditChangeCancel | src/extension.ts:156-214 | edit, then change the body, then cancel yields the last saved body in Preview mode |
| CommentCommands.NoteKey | src/extension.ts:300 | the key a persisted thread is stored under: its contextValue, or '' when that is missing or empty |
| CommentCommands.NoteKeys | src/extension.ts:299-301 | the key of each thread, in order |
| CommentCommands.LoadPersistedThreads | src/extension.ts:298-301 | the threads are set in the note map one after another under their keys |
| CommentCommands.LoadedUnderKey | src/extension.ts:298-301 | a thread whose key no later thread shares is found in the map under its key |
| NoteSerialization.StoredPathOfLoaded | src/persistence/serialization/serializer.ts:52-55 | writing back a path that was read unchanges it on POSIX and only turns its backslashes into slashes on Windows |
| NoteSerialization.LoadedPathOfStored | src/persistence/serialization/deserializer.ts:49-52 | on POSIX, a path inside the base directory that is written and read again is the same path |
| NoteSerialization.SerializeReaction | src/persistence/serialization/serializer.ts:8-23 | the record keeps the count and label; on Windows the stored icon path holds no backslash |
| NoteSerialization.DeserializeReaction | src/persistence/serialization/deserializer.ts:11-22 | the reaction keeps the stored count and label and is never marked as reacted by the author |
| NoteSerialization.SerializeReactions | src/persistence/serialization/serializer.ts:27-31 | one record per reaction, in order |
| NoteSerialization.DeserializeReactions | src/persistence/serialization/deserializer.ts:29-31 | one reaction per record, in order |
| NoteSerialization.ReactionsRoundTrip | src/persistence/serialization/deserializer.ts:11-22 | on POSIX, with icons inside the extension directory, written and re-read reactions keep label, count and icon, and none is marked as reacted by the author |
| NoteSerialization.DeserializeRange | src/persistence/serialization/deserializer.ts:44-46 | the range exists exactly when both stored lines are non-negative; it starts and ends at column 0 and serializes back to the same record |
| NoteSerialization.RangeRoundTrip | src/persistence/serialization/serializer.ts:40-45 | a written range reads back with the same lines and columns 0 |
| NoteSerialization.CommentRecords | src/persistence/serialization/serializer.ts:49-51 | one comment record per comment, in thread order |
| NoteSerialization.SerializeComment | src/persistence/serialization/serializer.ts:25-38 | the record holds the author name, the body, the reactions one by one and the timestamp |
| NoteSerialization.SerializeThread | src/persistence/serialization/serializer.ts:47-62 | the record holds the lines, the stored path, the comments in order and the thread key |
| NoteSerialization.Serialize | src/persistence/serialization/serializer.ts:64-70 | one record per entry of the note map, in the map's insertion order |
| NoteSerialization.DeserializeComment | src/persistence/serialization/deserializer.ts:24-42 | a fresh comment in preview mode under the given thread with the stored author, body, timestamp and reactions (none reacted by the author), taking the next comment id |
| NoteSerialization.DeserializeThread | src/persistence/serialization/deserializer.ts:48-65 | throws, consuming no id, exactly when a stored line is negative; otherwise a fresh thread at the loaded path with the stored key and one fresh comment per record, whose ids follow one another |
| NoteSerialization.Deserialize | src/persistence/serialization/deserializer.ts:67-73 | succeeds exactly when every record's lines are non-negative, and then gives one fresh thread per record, in order |
| NoteSerialization.Unreacted | src/persistence/serialization/deserializer.ts:20 | the reactions unchanged except that none is marked as reacted by the author |
| NoteSerialization.RecordRoundTrip | src/persistence/serialization/serializer.ts:47-62 | a thread read from a record writes back to that record, with slashes as separators and a missing timestamp replaced by the time of reading |
| NoteSerialization.ThreadRoundTrip | src/persistence/serialization/deserializer.ts:48-65 | on POSIX, with paths inside the workspace and extension directories, a written and re-read thread has the same path, key, lines, and comment bodies, authors, timestamps and reactions (none reacted by the author), at columns 0 |
| LegacyNoteSerialization.SerializeReaction | src/persistence/serializer.ts:6-12 | the record keeps count, icon path and label as they are |
| LegacyNoteSerialization.DeserializeReaction | src/persistence/deserializer.ts:9-16 | the reaction keeps count, icon path and label and is not reacted by the author |
| LegacyNoteSerialization.ReactionRecordRoundTrip | src/persistence/deserializer.ts:9-16 | reading a reaction record and writing it again gives the same record |
| LegacyNoteSerialization.SerializeReactions | src/persistence/serializer.ts:16-19 | one record per reaction, in order |
| LegacyNoteSerialization.DeserializeReactions | src/persistence/deserializer.ts:19-22 | one reaction per record, in order |
| LegacyNoteSerialization.CommentRecords | src/persistence/serializer.ts:38-40 | one comment record per comment, in thread order |
| LegacyNoteSerialization.SerializeComment | src/persistence/serializer.ts:14-27 | the record holds author name, body, reactions one by one and timestamp |
| LegacyNoteSerialization.SerializeThread | src/persistence/serializer.ts:36-46 | the record holds the lines, the path as it is and the comments in order, and no key |
| LegacyNoteSerialization.Serialize | src/persistence/serializer.ts:47-53 | one record per thread of the list, in order |
| LegacyNoteSerialization.DeserializeComment | src/persistence/deserializer.ts:18-32 | a fresh comment in preview mode with the stored author, body and reactions, stamped with the time of reading, taking the next comment id |
| LegacyNoteSerialization.DeserializeThread | src/persistence/deserializer.ts:38-51 | throws, consuming no id, exactly when a stored line is negative; otherwise a fresh thread at the stored path with no key and one fresh comment per record with consecutive ids |
| LegacyNoteSerialization.Deserialize | src/persistence/deserializer.ts:53-59 | succeeds exactly when every record's lines are non-negative, and then gives one fresh thread per record, in order |
| LegacyNoteSerialization.RecordRoundTrip | src/persistence/serializer.ts:36-46 | a thread read from a legacy record writes back to that record except that every timestamp is the time of reading |
| LegacyNoteSerialization.ThreadRoundTrip | src/persistence/deserializer.ts:38-51 | a written and re-read thread keeps path, lines, bodies, authors and reactions (none reacted by the author); columns become 0, the key is lost and every comment is stamped with the time of reading |
| Paths.PathToPosixReplaces | src/utils/index.ts:6-8 | splitting on the platform separator and joining with `/` replaces each separator by `/` and nothing else: the length is kept, no separator remains, and on POSIX the path is unchanged |
| Paths.PathToWin32Identity | src/utils/index.ts:10-12 | splitting on the Windows separator and joining with it again leaves every path unchanged |
| Paths.RelativeOfJoin | src/utils/index.ts:22-34 | the path relative to a base of the base joined with a relative path is that relative path |
| Paths.JoinOfRelative | src/utils/index.ts:22-34 | a path inside the base, made relative to it and joined to it again, is the same path |
| Paths.PathConversionsInverse | src/utils/index.ts:22-34 | with the same base (the given one when non-empty, else the workspace folder, else empty), full-to-relative undoes relative-to-full, and relative-to-full undoes full-to-relative for paths inside the base |
| TrailMarkdown.Headline | src/breadcrumbs/export.ts:10 | the heading is exactly `level` hash signs, one space, then the text |
| TrailMarkdown.EscapeCodeBlockIdentity | src/breadcrumbs/export.ts:8 | the code-fence escape replaces each triple backtick by the same three characters, so every snippet is written unchanged |
| TrailMarkdown.Files | src/breadcrumbs/export.ts:16 | the files touched are exactly the workspace-relative paths of the crumbs |
| TrailMarkdown.FilesBounds | src/breadcrumbs/export.ts:16 | there are at most as many files touched as crumbs, and at least one when the trail is not empty |
| TrailMarkdown.WindowLine | src/breadcrumbs/export.ts:17-28 | the investigation-window line appears exactly when the trail has a first and a last crumb whose dates both render to non-empty text |
| TrailMarkdown.SummaryShape | src/breadcrumbs/export.ts:15-31 | the summary begins with its heading, then the crumb count and the number of distinct files, and has seven lines exactly when the window line is present, else six |
| TrailMarkdown.CrumbLines | src/breadcrumbs/export.ts:38-53 | each crumb contributes nine lines when it has a non-empty note, else eight |
| TrailMarkdown.CrumbLinesShow | src/breadcrumbs/export.ts:42-52 | a crumb's lines are its third-level heading with number, relative path and range label, a blank line, the capture date, the note when there is one, then a blank line and the escaped snippet in a code fence followed by a blank line |
| TrailMarkdown.CrumbsLines | src/breadcrumbs/export.ts:38-53 | the crumb lines of the first n crumbs number eight per crumb plus one per crumb with a note |
| TrailMarkdown.NoteCountMonotone | src/breadcrumbs/export.ts:45-47 | the number of crumbs with a note among the first a crumbs is at most that among the first b, for a <= b |
| TrailMarkdown.CrumbsLinesFlatten | src/breadcrumbs/export.ts:38-53 | the crumb lines are the concatenation, in trail order, of each crumb's section |
| TrailMarkdown.SectionStartFlatten | src/breadcrumbs/export.ts:38-53 | crumb k's section starts 8k + (crumbs with a note before k) lines in |
| TrailMarkdown.CrumbSectionAt | src/breadcrumbs/export.ts:38-53 | the lines from crumb k's offset to crumb k+1's are exactly crumb k's section, numbered k+1 |
| TrailMarkdown.CrumbHeadingAt | src/breadcrumbs/export.ts:42 | the line at crumb k's offset is the heading `### <k+1>. <path>:<range>` of crumb k |
| TrailMarkdown.BuildCrumbSection | src/breadcrumbs/export.ts:33-56 | the section is the Trail heading, a blank line and every crumb's lines in trail order, joined by newlines |
| TrailMarkdown.DescriptionParagraph | src/breadcrumbs/export.ts:58-69 | the description paragraph, with its blank line, appears right after the title exactly when the trail has a non-empty description |
| TrailMarkdown.DropWhileUnsafe | src/breadcrumbs/export.ts:81 | gives a suffix of the input that is empty or starts with a letter, digit, dash or underscore |
| TrailMarkdown.DropWhileDash | src/breadcrumbs/export.ts:81 | gives a suffix of the input that is empty or does not start with a dash |
| TrailMarkdown.ReplaceUnsafeRuns | src/breadcrumbs/export.ts:81 | the result holds only letters, digits, dashes and underscores, and is empty only for an empty name |
| TrailMarkdown.CollapseDashes | src/breadcrumbs/export.ts:81 | the result holds only characters of its input, keeps the first character, is empty only for an empty input and has no two dashes in a row |
| TrailMarkdown.WordDropWhileUnsafe | src/breadcrumbs/export.ts:81 | dropping a leading run of unsafe characters loses no letter, digit or underscore |
| TrailMarkdown.NonDashDropWhileDash | src/breadcrumbs/export.ts:81 | dropping a leading run of dashes loses no other character |
| TrailMarkdown.ReplaceUnsafeRunsKeepsWord | src/breadcrumbs/export.ts:81 | the first replacement keeps every letter, digit and underscore of the name, in order, and adds only dashes |
| TrailMarkdown.ReplaceUnsafeRunsIdentity | src/breadcrumbs/export.ts:81 | a name of safe characters only is left unchanged by the first replacement |
| TrailMarkdown.CollapseDashesKeepsNonDash | src/breadcrumbs/export.ts:81 | collapsing dash runs keeps every other character, in order |
| TrailMarkdown.CollapseDashesIdentity | src/breadcrumbs/export.ts:81 | text without two dashes in a row is left unchanged by the second replacement |
| TrailMarkdown.SanitisedKeepsWord | src/breadcrumbs/export.ts:81 | the stem keeps exactly the name's letters, digits and underscores in order, and equals the name when the name is all safe characters with no two dashes in a row |
| TrailMarkdown.DefaultFileName | src/breadcrumbs/export.ts:85 | the default file name ends in `.md` after a non-empty stem |
| TrailMarkdown.DefaultFileNameFallback | src/breadcrumbs/export.ts:81-85 | an empty trail name gives `breadcrumb-trail.md`; any other name gives its sanitised stem plus `.md` |
| TrailMarkdown.SanitisedName | src/breadcrumbs/export.ts:81-85 | the file-name stem holds only safe characters, never two dashes in a row, and is empty (so the default name is used) exactly when the trail name is empty |
| TrailMarkdown.ExportTrail | src/breadcrumbs/export.ts:71-112 | an empty trail exports nothing; with a target the whole document is written there; otherwise a default location is offered exactly when a workspace folder is open, and a file is written exactly when the save dialog returns a location; the offered location is the workspace folder joined with the default file name, and the file written at the dialog's location holds the whole document |
| BreadcrumbsExport.Entity | src/webviews/export-breadcrumbs/exportBreadcrumbsWebview.ts:368-375 | each character maps to itself unless it is one of the five special characters, which map to an entity from `&` to `;`; no output character is `<`, `>`, `"` or `'` |
| BreadcrumbsExport.EntityMapped | src/webviews/export-breadcrumbs/exportBreadcrumbsWebview.ts:368-375 | the mapped text is never shorter, holds none of `<`, `>`, `"`, `'`, and equals the input when the input has no special character |
| BreadcrumbsExport.EscapeHtmlAppend | src/webviews/export-breadcrumbs/exportBreadcrumbsWebview.ts:368-375 | escaping distributes over concatenation |
| BreadcrumbsExport.ReplaceCharBySingle | src/webviews/export-breadcrumbs/exportBreadcrumbsWebview.ts:370-374 | one replacement pass on a single character gives the replacement for the target character and the character itself otherwise |
| BreadcrumbsExport.EscapeHtmlChar | src/webviews/export-breadcrumbs/exportBreadcrumbsWebview.ts:368-375 | the five chained replacements escape one character to its entity, with `&` replaced first so no entity is escaped twice |
| BreadcrumbsExport.EscapeHtmlIsEntityMap | src/webviews/export-breadcrumbs/exportBreadcrumbsWebview.ts:368-375 | the chained replacements equal the character-by-character entity map |
| BreadcrumbsExport.EscapeHtmlSafe | src/webviews/export-breadcrumbs/exportBreadcrumbsWebview.ts:368-375 | escaped text contains no `<`, `>`, `"` or `'`, and text with no special character is left unchanged |
| BreadcrumbsExport.FileName | src/webviews/export-breadcrumbs/exportBreadcrumbsWebview.ts:346-350 | the file name is the part of the path after its last `/` or `\`: a suffix with no separator, preceded by a separator unless it is the whole path |
| BreadcrumbsExport.Selected | src/webviews/export-breadcrumbs/exportBreadcrumbsWebview.ts:129-131 | the selected breadcrumbs are breadcrumbs of the map, at most one per id, and none exactly when no id is in the map |
| BreadcrumbsExport.SelectedAppend | src/webviews/export-breadcrumbs/exportBreadcrumbsWebview.ts:129-131 | selecting two id lists in a row selects each list's breadcrumbs in order |
| BreadcrumbsExport.SelectedAll | src/webviews/export-breadcrumbs/exportBreadcrumbsWebview.ts:129-131 | when every id is in the map, one breadcrumb per id is selected, in id order |
| BreadcrumbsExport.NodesShowPoints | src/webviews/export-breadcrumbs/exportBreadcrumbsWebview.ts:286-288 | node i of the flowchart is `node<i>` labelled with point i's one-based ordinal, its tag, its file name and its one-based line |
| BreadcrumbsExport.NodesDistinct | src/webviews/export-breadcrumbs/exportBreadcrumbsWebview.ts:286-288 | no two nodes of the flowchart share an id |
| BreadcrumbsExport.NodeLinesDistinct | src/webviews/export-breadcrumbs/exportBreadcrumbsWebview.ts:287 | two equal node lines carry the same node number, because the number is the digit run between `node` and the opening `[` |
| BreadcrumbsExport.EdgesCount | src/webviews/export-breadcrumbs/exportBreadcrumbsWebview.ts:290-292 | one edge less than there are points (none for no points), edge i joining node i to node i+1, which exists |
| BreadcrumbsExport.DescriptionJoins | src/webviews/export-breadcrumbs/exportBreadcrumbsWebview.ts:304-306 | the path description is the numbered point tags joined by arrows, with no arrow after the last |
| BreadcrumbsExport.Cards | src/webviews/export-breadcrumbs/exportBreadcrumbsWebview.ts:310-321 | one card per point |
| BreadcrumbsExport.CardsShowPoints | src/webviews/export-breadcrumbs/exportBreadcrumbsWebview.ts:155-162 | each card shows the point's one-based ordinal and line and its snippet HTML-escaped |
| BreadcrumbsExport.Sections | src/webviews/export-breadcrumbs/exportBreadcrumbsWebview.ts:150-172 | one section per selected breadcrumb |
| BreadcrumbsExport.ExportBreadcrumbs | src/webviews/export-breadcrumbs/exportBreadcrumbsWebview.ts:124-148 | nothing is exported exactly when no selected id is in the map; otherwise one section per selected breadcrumb, at most one per id |
| NotesExport.SelectsStatus | src/webviews/export-notes/exportNotesWebview.ts:134-139 | a note whose first comment carries a status prefix is selected exactly when that status is ticked or "no status" is ticked |
| NotesExport.NoStatusSelectsAll | src/webviews/export-notes/exportNotesWebview.ts:138 | ticking "no status" selects every note |
| NotesExport.CommentViews | src/webviews/export-notes/exportNotesWebview.ts:172-192 | the body and author of each comment, in order |
| NotesExport.Picked | src/webviews/export-notes/exportNotesWebview.ts:131-143 | reading the first comment throws exactly when some note has none; otherwise the picked notes are at most all notes, each with a first comment that the status selection accepts |
| NotesExport.PickedGrows | src/webviews/export-notes/exportNotesWebview.ts:131-143 | the filter keeps map order: one more note is appended exactly when the selection accepts its first comment |
| NotesExport.ExportCommentShape | src/webviews/export-notes/exportNotesWebview.ts:194-199 | a comment is written between newlines, ending with its body, with the author in bold in front of it exactly when an author is given and non-empty |
| NotesExport.CommentsUpToStart | src/webviews/export-notes/exportNotesWebview.ts:174-188 | the comments text always begins with the first comment |
| NotesExport.CommentsTextShape | src/webviews/export-notes/exportNotesWebview.ts:172-192 | a note's text begins with its first comment and ends with the separator rule; without replies (or with a single comment) it is exactly the first comment and the rule |
| NotesExport.ExportComments | src/webviews/export-notes/exportNotesWebview.ts:172-192 | throws exactly when the note has no comment; otherwise the text of the first comment, then the replies when asked for, then the rule |
| NotesExport.LineLabel | src/webviews/export-notes/exportNotesWebview.ts:205-210 | a one-line range is labelled by its line number; the label holds a dash exactly when the range spans several lines |
| NotesExport.Exported | src/webviews/export-notes/exportNotesWebview.ts:124-170 | the export throws exactly when some note has no comment, and opens no document exactly when no note is picked or the format is not markdown |
| NotesExport.ReadViews | src/webviews/export-notes/exportNotesWebview.ts:131-133 | one view per thread, in order, holding what the export reads of the thread |
| NotesExport.ExportNotes | src/webviews/export-notes/exportNotesWebview.ts:124-170 | the result is the export of the note map's threads in insertion order |
| Findings.WorkspacePrefix | src/parsers/brakeman.ts:14-17 | the prefix is empty with no workspace folder open, and otherwise the folder path followed by one more character (the `/`) |
| BanditParser.BanditFinding | src/parsers/bandit.ts:13-34 | a finding converted from an entry is tagged `bandit`, carries the entry's issue text and spans whole lines (columns 0) |
| BanditParser.BanditFindings | src/parsers/bandit.ts:11-39 | no findings when the report has no results array; otherwise the findings of the entries in order up to the first entry that throws, which ends the list |
| BanditParser.ParseBandit | src/parsers/bandit.ts:7-40 | the loop returns exactly the findings of the entries before the first one that throws |
| BanditParser.BanditEntryConverts | src/parsers/bandit.ts:15-32 | an entry with positive lines becomes a finding at the workspace-joined path, from the first listed line to the second (or the first when there is no second), made zero-based, with the issue text and the tool `bandit` |
| BanditParser.BanditLineZeroThrows | src/parsers/bandit.ts:19-24 | an entry whose first line is 0 or less gives a negative position, which throws |
| BanditParser.BanditOnePerEntry | src/parsers/bandit.ts:13-34 | when every entry converts, there is one finding per entry, in order |
| GosecParser.LineAt | src/parsers/gosec.ts:17-18 | the line operand is a JSON number as given, or decimal text converted to its number; anything else throws |
| GosecParser.GosecFinding | src/parsers/gosec.ts:12-23 | a converted finding has the tool `gosec`, the entry's details and its file as given, on the entry's line made zero-based |
| GosecParser.GosecFindings | src/parsers/gosec.ts:10-28 | no findings without an `Issues` array; otherwise the findings of the entries in order up to the first that throws |
| GosecParser.ParseGosec | src/parsers/gosec.ts:7-29 | the loop returns exactly the findings of the entries before the first one that throws |
| GosecParser.GosecEntryConverts | src/parsers/gosec.ts:14-21 | an entry converts exactly when its line is at least 1, and then to a one-line finding at line - 1 with the file, the details and the tool `gosec` |
| GosecParser.GosecLineTextConverts | src/parsers/gosec.ts:17-18 | an entry whose line is written as decimal text converts exactly as the one with the number |
| GosecParser.GosecOnePerEntry | src/parsers/gosec.ts:12-23 | when every entry converts, there is one finding per entry, in order |
| BrakemanParser.BrakemanFinding | src/parsers/brakeman.ts:12-35 | a converted finding has no tool and sits on the entry's line made zero-based |
| BrakemanParser.BrakemanFindings | src/parsers/brakeman.ts:10-37 | no findings without a `warnings` array; otherwise the findings of the entries in order up to the first that throws |
| BrakemanParser.ParseBrakeman | src/parsers/brakeman.ts:7-41 | the loop returns exactly the findings of the entries before the first one that throws |
| BrakemanParser.BrakemanEntryConverts | src/parsers/brakeman.ts:14-33 | an entry converts exactly when its line is at least 1, and then to a one-line finding at the workspace folder followed by `/` and the file (the file alone with no folder open), with text `type: message` and no tool |
| BrakemanParser.BrakemanOnePerEntry | src/parsers/brakeman.ts:12-35 | when every entry converts, there is one finding per entry, in order |
| SemgrepParser.SemgrepResult | src/parsers/semgrep.ts:12-23 | with no workspace folder open any entry throws; a converted result spans whole lines |
| SemgrepParser.SemgrepResults | src/parsers/semgrep.ts:11-24 | the parse succeeds exactly when the report has a results array whose every entry converts, and then gives one result per entry, in order |
| SemgrepParser.ParseSemgrep | src/parsers/semgrep.ts:7-27 | the loop returns the parse above: all results, or a throw |
| SemgrepParser.SemgrepEntryConverts | src/parsers/semgrep.ts:13-22 | with a workspace folder, an entry converts exactly when both lines are at least 1, and then to the folder joined with the path by `/`, from start line - 1 to end line - 1, with the message |
| SemgrepParser.SemgrepNeedsWorkspace | src/parsers/semgrep.ts:13-15 | with no workspace folder open the parse succeeds exactly when the results are empty |
| CheckovParser.CheckovFinding | src/parsers/checkov.ts:14-33 | a converted finding has no tool, carries the check name and spans whole lines |
| CheckovParser.ParseCheckType | src/parsers/checkov.ts:13-34 | the loop over one check type's failed checks returns the findings before the first that throws, and says whether none threw |
| CheckovParser.ParseCheckov | src/parsers/checkov.ts:7-40 | the findings of all check types in order, stopping at the first check that throws anywhere |
| CheckovParser.CheckovCheckConverts | src/parsers/checkov.ts:16-31 | a failed check converts exactly when both listed lines are at least 1, and then to a finding at the workspace-prefixed path, from the first line - 1 to the second line - 1, with the check name and no tool |
| CheckovParser.CheckovAppend | src/parsers/checkov.ts:12-34 | the check types are read in order: the second group's findings follow the first's only when nothing in the first group threw |
| SarifParser.LocationFinding | src/parsers/sarif.ts:21-39 | a finding of a location carries the result's message and the run's tool name |
| SarifParser.ParseResult | src/parsers/sarif.ts:17-41 | the loop over one result's locations returns the findings before the first that throws, and says whether none threw |
| SarifParser.ParseResults | src/parsers/sarif.ts:17-41 | the loop over a run's results returns the findings of the results in order, stopping at the first location that throws |
| SarifParser.ParseRun | src/parsers/sarif.ts:13-42 | one run: a run without a tool driver, with a `null` driver, or without a results array throws at once; otherwise the findings of its results before the first throw |
| SarifParser.ParseSarif | src/parsers/sarif.ts:7-48 | the findings of all runs, results and locations in order, keeping everything before the first throw |
| SarifParser.LocationConverts | src/parsers/sarif.ts:23-38 | a location converts exactly when its lines are at least 1 and its columns are not negative, and then to a finding at the workspace-joined path, lines made zero-based, columns as given |
| SarifParser.NullDriverThrows | src/parsers/sarif.ts:13-15 | reading the name of a `null` tool driver throws, so that run yields no finding and ends the parse |
| SarifParser.ResultSharesNote | src/parsers/sarif.ts:19-39 | every finding of a result carries that result's message and the run's tool |
| SarifParser.SarifRunsAppend | src/parsers/sarif.ts:13-42 | runs are read in order: the findings of later runs follow only when nothing in the earlier runs threw |
| SarifParser.RunResultsAppend | src/parsers/sarif.ts:17-41 | results are read in order within a run: later results add findings only when nothing in the earlier ones threw |
| Notes.NoteList.constructor | src/helpers.ts:10 | a new note list holds no threads |
| Notes.RemoteDb.constructor | src/extension.ts:60-63 | a new remote store has had no thread pushed to it |
| BreadcrumbFile.SerializePoints | src/persistence/breadcrumbs-persistence.ts:60-76 | one point record per point, in order |
| Editor.MakeRange | src/parsers/bandit.ts:19-24 | a range is built exactly when no coordinate is negative, with the coordinates as given |
| OrderedMap.Put | src/breadcrumbs/store.ts:92 | setting a key stores the value under it; a key already present keeps its place in the insertion order and a new key goes last |
| OrderedMap.Remove | src/breadcrumbs/store.ts:115 | deleting a key drops its entry and its place, the other keys keeping their order |
| OrderedMap.RemoveKeyedBy | src/controllers/breadcrumbs.ts:33-35 | deleting a key keeps every key naming its own value, and deleting an absent key changes nothing |
| OrderedMap.Values | src/breadcrumbs/store.ts:59 | the values are listed in key insertion order, one per key |
| OrderedMap.Empty | src/breadcrumbs/store.ts:33 | a new table has no keys |
| OrderedMap.PutExistingValues | src/breadcrumbs/store.ts:52 | setting a present key changes the values list in that key's slot only |
| OrderedMap.PutNewValues | src/breadcrumbs/store.ts:92 | setting a new key appends its value to the values list |
| OrderedMap.FromValues | src/breadcrumbs/store.ts:49-53 | the table built by setting each value under its id, one after another, stores every value under its own id |
| OrderedMap.FromValuesDomain | src/breadcrumbs/store.ts:49-53 | that table holds exactly the ids of the values and every key names its own value |
| OrderedMap.FromValuesLastWins | src/breadcrumbs/store.ts:49-53 | of several values with one id, the last is stored |
| OrderedMap.FromValuesDistinctKeys | src/breadcrumbs/store.ts:49-53 | values with distinct ids give the ids as keys, in value order |
| OrderedMap.FromValuesOfValues | src/breadcrumbs/store.ts:41-53 | rebuilding a table keyed by id from its own values gives the same table |
| OrderedMap.PutAll | src/persistence/breadcrumbs-persistence.ts:102 | a sequence of sets gives a well-formed table |
| OrderedMap.PutAllKeepsOrder | src/persistence/breadcrumbs-persistence.ts:102 | after a sequence of sets the old keys keep their order at the front |
| OrderedMap.PutAllDomain | src/persistence/breadcrumbs-persistence.ts:102 | the sets add exactly the keys set, and a key not set keeps its value |
| OrderedMap.PutAllLastWins | src/persistence/breadcrumbs-persistence.ts:102 | of several sets of one key, the last value set is stored |

## Left out

- JSON text: `JSON.parse` and `JSON.stringify` are not modelled. A report or file is given as its parsed value, and a text that does not parse is given as `Fault`. The legacy `serialize` returns the records that would be stringified.
- Report fields: a missing field or a value of the wrong type is a `Fault` wherever the code dereferences it, reads it as an array, or does arithmetic on it. JavaScript may instead carry `undefined` or `NaN` on; for example, `new vscode.Range(NaN, …)` is not modelled as succeeding. Text fields are required to be strings, where a template literal would stringify any value.
- SarifParser.RunHeader: a tool driver name that is not a string is carried as no tool, where JavaScript would pass the value itself.
- GosecParser.LineAt: only a JSON number or plain decimal text is read as a line. JavaScript's `-` also converts other values: text with surrounding spaces, a sign, an exponent or a hex prefix, and `true`, `false` and `null`. The model gives a `Fault` for these.
- JsonTree.Json: JSON numbers are integers. Fractions and exponents in a report are not modelled.
- Format.SnippetPreview: lengths and the cut count characters (code points). JavaScript counts UTF-16 code units, so text outside the Basic Multilingual Plane is cut at a different place, and JavaScript's `slice` can split a surrogate pair.
- NotesExport.Exported: `snippetOf` is total. In the source, `exportCodeSnippet` (src/webviews/export-notes/exportNotesWebview.ts:201-215) rejects the whole export when a note's document cannot be opened. So "the export fails exactly when some note has no comment" holds only for documents that open.
- TrailStore.BreadcrumbStore.AddCrumb: one clock reading `now` gives both the crumb's creation time and the trail's update time. The source reads the clock twice (src/breadcrumbs/store.ts:140 and :143), so the two may differ by the time between the readings.
- NoteHelpers: the model follows the signatures in `src/helpers.ts`: `saveNoteComment(thread, text, firstComment, noteList, author?)` at lines 6-12 and `setNoteStatus(reply, status)` at line 33. The command handlers in `src/extension.ts` (lines 103, 113 and 236-243) pass other arguments: the note map, an empty author, the remote store and reply text. Those calls are not modelled. Under the helpers' signatures, the empty author falls back to the author setting.
- Editor ranges: `vscode.Range` swaps a start that lies after the end. The model keeps the coordinates as given.
- File system, network and remote database: the file reads and writes in the persistence modules, `src/persistence/remote-db/index.ts` (a RethinkDB client with change feeds), and the remote sync routine are not part of this model. The remote sync routine has no source to model. The remote store is seen only through the threads pushed to it.
- Webviews: the HTML, CSS and scripts, their message plumbing, the prompt and quick-pick commands of `src/breadcrumbs/commands.ts` and `src/webviews/importToolResultsWebview.ts`, and editor decorations are UI wiring around the modelled operations. The exporters are modelled up to the text or sections they produce. The fixed parts of the HTML page and the Mermaid preamble are not modelled.
- Dates: clock readings are natural numbers passed in. `toLocaleString` and the ISO text of dates are a `showDate` parameter and opaque strings.
- Ids: `uuidv4` values are parameters. An id that is already in use is treated as `Map.set` treats it: the new value replaces the old one.
- Reactions: the extension's reaction group is an abstract list passed in, and icon paths are strings. `src/reactions/resource.ts` is not part of this model.
- Paths: `path.join` and `path.relative` are modelled as joining with `/` and stripping a base prefix. Normalisation of `..` and `.` and drive letters are not modelled. On Windows only the separator rewriting is modelled.
- Concurrency: `async` code and `Promise.all` in the exporters and loaders are modelled as sequential steps in source order. Snippets read from documents are a parameter.
- Notifications: information and error messages are not modelled as text. The breadcrumb and trail persistence models report whether an error was shown.
- TrailMarkdown.CrumbLines: states the number of lines of one crumb. Their content is stated by `TrailMarkdown.CrumbLinesShow`.
- TrailMarkdown.CrumbsLines: states the number of lines for the first n crumbs. The place and content of each crumb's section are stated by `TrailMarkdown.CrumbSectionAt` and `TrailMarkdown.CrumbHeadingAt`.
- TrailMarkdown.ReplaceUnsafeRuns: states the shape of the result. That the letters, digits and underscores survive in order is stated by `TrailMarkdown.ReplaceUnsafeRunsKeepsWord` and `TrailMarkdown.ReplaceUnsafeRunsIdentity`.
- TrailMarkdown.CollapseDashes: states the shape of the result. That the other characters survive in order is stated by `TrailMarkdown.CollapseDashesKeepsNonDash` and `TrailMarkdown.CollapseDashesIdentity`.
- BreadcrumbsExport.Cards: states one card per point. The card contents are stated by `BreadcrumbsExport.CardsShowPoints`.
- BreadcrumbsExport.Sections: states one section per breadcrumb. The contents of each section are given by `SectionOf` and stated by the node, edge, description and card lemmas.
- BreadcrumbsExport.ExportBreadcrumbs: states when a document is produced and how many sections it has. The sections' order and content follow `Selected`, `SelectedAppend` and `SelectedAll`.
- BreadcrumbFile.SerializeBreadcrumbs: states the id, label and point count of each record. The full contents are stated by `BreadcrumbFile.SerializeRoundTrip`.
- OrderedMap.PutAll: states only that the table stays well formed. Its order, domain and values are stated by `PutAllKeepsOrder`, `PutAllDomain` and `PutAllLastWins`.
