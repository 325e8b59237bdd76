# VoidNote note store, modelled in Dafny

VoidNote is a browser note-taking client. Each note records a transcript, per-speaker
diarization segments, a creation time and an optional audio blob with its object URL. This
project models the part of the client that keeps the notes:

- the ordered note collection, keyed by `id`, and the "current note" selection;
- the per-user storage key and the local-storage read and write (`useLocalStorage`);
- the two stores that manage the list. `useNote` is user-aware and its update is an upsert.
  `NoteView` is the store wired into the app: its update only replaces, and its buttons
  append new notes explicitly;
- the list-row rename rules: trim the input, reject blank names, revert on Escape;
- the editor's projections: diarization segments mapped to `{speaker, text}`, the reload on
  a note switch, the stop-recording merge and the heading text.

Modules, one per source file (plus two helper modules):

| file | module | models |
|---|---|---|
| `wrappers.dfy` | `Wrappers` | `Option` and `Result` |
| `text.dfy` | `Text` | `String.prototype.trim`, and `id.split("-")[0]` |
| `notes.dfy` | `Notes` | the `NoteModel` record and the list transforms |
| `storage.dfy` | `Storage` | `src/hooks/useLocalStorage.tsx` |
| `use_note.dfy` | `UseNote` | `src/hooks/useNote.ts` |
| `note_entry.dfy` | `NoteEntryComponent` | `src/components/noteEntry/NoteEntry.tsx` |
| `note_view.dfy` | `NoteViewComponent` | `src/components/NoteView.tsx` |
| `note_editor.dfy` | `NoteComponent` | `src/components/Note.tsx` |

Modelling conventions:

- React state setters are synchronous assignments, applied in program order.
- `localStorage` is a `map<string, Entry<T>>`. A slot either holds a parsed value
  (`Json(v)`) or is `Unreadable`, which covers text that does not parse and the empty string.
  A missing key is a key absent from the map.
- A storage write can fail (quota). Each hook object has a `writable` flag: either the
  browser accepts every write or it rejects every write.
- The session's user id is an `Option<string>`. A user counts as signed in only when the id
  is present and non-empty, which is how JavaScript truthiness treats it.
- `crypto.randomUUID()` becomes a `freshId` parameter. It must be non-empty and must not
  already be used in the list. `new Date()` becomes a `now` parameter.
- `URL.createObjectURL` becomes a `newUrl` parameter. Blobs are opaque tokens.
- Parent callbacks of the `NoteEntry` component are recorded as an ordered list of emitted
  events.
- `Note` shares the `NoteView`'s note ref. Its `onResult` is the view's `updateNote`
  (src/components/NoteView.tsx:273), so `NoteEditor` writes `view.current` and then calls
  `view.UpdateNote()`.
- The editor is shown exactly when the current note's id is non-empty
  (src/components/NoteView.tsx:268). This is `NoteView.EditorShown`, and the operations'
  contracts state it.

Three behaviours of the code worth knowing:

- In `NoteEntry.tsx`, saving a blank name does not revert the displayed name. It only skips
  the rename. Only the list row defined inside `NoteView.tsx` reverts.
- `useNote`'s `createNote` does not add the note to the list. The note joins the list on
  the next `updateNote`.
- With `NoteView`'s replace-only update, a current note that is not in the list is never
  saved.

## Model

| member | source | states |
|---|---|---|
| `Text.Trim` | src/components/noteEntry/NoteEntry.tsx:39 | `trim` gives a string no longer than its input, with no whitespace at either end. The result is empty exactly when the input is all whitespace |
| `Text.TrimExact` | src/components/noteEntry/NoteEntry.tsx:39 | trimming removes the surrounding whitespace and nothing else: `Trim(a + t + b) == t` for blank `a` and `b` and an already-trimmed `t` |
| `Text.TrimIdempotent` | src/components/NoteView.tsx:110-113 | trimming twice equals trimming once, so the name passed to a rename is already trimmed |
| `Text.IdPrefix` | src/components/noteEntry/NoteEntry.tsx:28 | `id.split("-")[0]` is a prefix of the id with no '-' in it. It stops either at the id's first '-' or at the end of the id |
| `Text.IdPrefixOfFields` | src/components/NoteView.tsx:95 | splitting `p + "-" + rest` keeps exactly `p` when `p` has no '-' |
| `Notes.NewNote` | src/hooks/useNote.ts:63-67 | a created note is the blank note with the fresh id and the creation time |
| `Notes.DisplayName` | src/components/NoteView.tsx:95 | the shown name is never empty. It is the transcript when that is non-empty; otherwise it is `Note ` followed by a '-'-free prefix of the id |
| `Notes.DefaultName` | src/components/noteEntry/NoteEntry.tsx:28 | a note's default name is non-empty and equals its transcript when that is non-empty |
| `Notes.FindIndex` | src/hooks/useNote.ts:76 | `findIndex` returns -1 exactly when no note has the id. Otherwise it returns the first position holding the id |
| `Notes.Find` | src/components/NoteView.tsx:143 | `find` finds something exactly when the id is listed, and returns the note at the first position holding it |
| `Notes.RemoveId` | src/hooks/useNote.ts:93 | the filter keeps exactly the notes with another id: no note with the removed id remains. It is the identity when the id is absent |
| `Notes.RemoveIdAppend` | src/components/NoteView.tsx:55 | the filter keeps the survivors in their original order: it distributes over concatenation |
| `Notes.RemoveIdLength` | src/components/NoteView.tsx:55 | the list gets shorter exactly when the id was present |
| `Notes.RemoveIdKeepsUnique` | src/hooks/useNote.ts:93 | deleting keeps ids unique |
| `Notes.RenameId` | src/hooks/useNote.ts:106-108 | the map keeps the length and order and changes only transcripts. Exactly the notes with the id take the new name |
| `Notes.RenameIdKeepsIds` | src/components/NoteView.tsx:72-74 | renaming keeps the set of ids and their uniqueness |
| `Notes.ReplaceFirst` | src/components/NoteView.tsx:32-37 | the first entry with the note's id becomes that note and every other entry is unchanged. If the id is absent, the list is unchanged (nothing is appended) |
| `Notes.ReplaceFirstKeepsIds` | src/hooks/useNote.ts:79-80 | replacing by id keeps every position's id, so ids stay unique |
| `Notes.ReplaceFirstWithListed` | src/components/NoteView.tsx:143-147 | saving a note that was just selected from the list leaves the list unchanged |
| `Notes.ReplaceFirstAppended` | src/components/NoteView.tsx:226-229 | a freshly appended note is found at the end, so the update after the "+" button changes nothing |
| `Notes.Upsert` | src/hooks/useNote.ts:76-87 | the upsert replaces the entry when the id is present. When it is absent, a non-empty id is appended at the end and an empty id leaves the list unchanged |
| `Notes.UpsertKeepsUnique` | src/hooks/useNote.ts:83-87 | an upsert never introduces a duplicate id. Afterwards a note with a non-empty id is in the list, and the length grows by one exactly when the note was appended |
| `Notes.UpsertBlank` | src/hooks/useNote.ts:97-99 | upserting the blank note changes nothing when no stored note has the empty id |
| `Storage.UserKey` | src/hooks/useLocalStorage.tsx:9 | the key is `<key>_<userId>` for a signed-in user and the bare key otherwise |
| `Storage.UserKeysDistinct` | src/hooks/useLocalStorage.tsx:9 | distinct signed-in users get distinct keys, and no user's key equals the bare signed-out key |
| `Storage.Load` | src/hooks/useLocalStorage.tsx:12-20 | the initial value is the stored value when the slot parses, and `initialValue` when the slot is missing or malformed |
| `Storage.Persist` | src/hooks/useLocalStorage.tsx:28-31 | an accepted write sets exactly one slot. A rejected write leaves storage unchanged |
| `Storage.PersistTwice` | src/hooks/useNote.ts:95-99 | a second write to the same slot overwrites the first |
| `Storage.LoadAfterPersist` | src/hooks/useLocalStorage.tsx:27-28 | after an accepted write, a load under that key returns the written value. A write never changes what another key loads |
| `Storage.UsersIsolated` | src/hooks/useNote.ts:42 | saving for one user never changes what a different user, or the signed-out key, loads |
| `Storage.Resolve` | src/hooks/useLocalStorage.tsx:26 | a function argument to `setValue` is applied to the current value. Any other argument is used as given |
| `Storage.LocalStorage.constructor` | src/hooks/useLocalStorage.tsx:4-20 | on mount the state is the loaded value under the user's key |
| `Storage.LocalStorage.SetValue` | src/hooks/useLocalStorage.tsx:23-32 | the state becomes the resolved value even if the write fails. An accepted write makes a later load under the same key return that value |
| `Storage.LocalStorage.Rerender` | src/hooks/useLocalStorage.tsx:5-12 | as written: after a session change the key follows the new user, but the state keeps its old value |
| `Storage.LocalStorage.SwitchUser` | src/hooks/useLocalStorage.tsx:9-20 | corrected: after a session change the state is reloaded from the new user's key |
| `Storage.LeakAcrossUsers` | src/hooks/useLocalStorage.tsx:9-28 | a concrete run: Alice's note is written into Bob's slot |
| `Storage.NoLeakAcrossUsers` | src/hooks/useLocalStorage.tsx:9-28 | the same run with `SwitchUser`: Bob's slot holds only Bob's note |
| `UseNote.LoadNotes` | src/hooks/useNote.ts:23-33 | with no user the result is `[]`. With a user it is the stored list, or `[]` when the slot is missing or does not parse |
| `UseNote.SaveNotes` | src/hooks/useNote.ts:38-46 | with no user nothing is written. With a user the `notes_<userId>` slot is written, unless the browser rejects the write |
| `UseNote.SaveThenLoad` | src/hooks/useNote.ts:27-42 | loading after a save returns the saved list. A save for one user leaves every other user's list unchanged |
| `UseNote.SaveTwice` | src/hooks/useNote.ts:95-99 | a second save for the same user overwrites the first |
| `UseNote.NoteStore.constructor` | src/hooks/useNote.ts:19-35 | on mount the list is the user's stored list and the current note is blank |
| `UseNote.NoteStore.ChangeUser` | src/hooks/useNote.ts:49-56 | a user change reloads that user's list and resets the current note to the blank note |
| `UseNote.NoteStore.CreateNote` | src/hooks/useNote.ts:58-70 | with no user, creation fails and nothing changes. With a user it returns the blank note with the fresh id and makes it current |
| `UseNote.NoteStore.UpdateNote` | src/hooks/useNote.ts:72-88 | with no user nothing changes. Otherwise the list becomes the upsert with the current note and the persisted list equals the in-memory list. Ids stay unique |
| `UseNote.NoteStore.DeleteNote` | src/hooks/useNote.ts:90-101 | with no user nothing changes. Otherwise the notes with a different id are kept in order and persisted. The current note resets to blank if it was deleted or the list became empty; otherwise it is kept. Ids stay unique |
| `UseNote.NoteStore.RenameNote` | src/hooks/useNote.ts:103-116 | with no user nothing changes. Otherwise only the matching notes' transcripts change and the list is persisted. A renamed current note takes the name and is upserted |
| `NoteEntryComponent.NoteEntry.constructor` | src/components/noteEntry/NoteEntry.tsx:27-28 | the entry starts out not editing and shows the note's default name |
| `NoteEntryComponent.NoteEntry.Rerender` | src/components/noteEntry/NoteEntry.tsx:20-28 | a re-render takes the new `note` and `isSelected` props and keeps `isEditing` and `currentName`, which are local state initialised only on mount |
| `NoteEntryComponent.EscapeAfterParentRename` | src/components/noteEntry/NoteEntry.tsx:61-64 | after the parent re-renders the row with a renamed note, Escape reverts to the new note's name, not the name the row was mounted with |
| `NoteEntryComponent.NoteEntry.BeginRename` | src/components/noteEntry/NoteEntry.tsx:81-85 | "Rename" enters editing mode |
| `NoteEntryComponent.NoteEntry.Change` | src/components/noteEntry/NoteEntry.tsx:57 | typing replaces the input text |
| `NoteEntryComponent.NoteEntry.Save` | src/components/noteEntry/NoteEntry.tsx:38-44 | save always leaves editing mode. It calls `onRename(id, trimmed)` exactly once when the trimmed text is non-empty and never otherwise. The requested name is `Trim` of the input, so by `Text.Trim` it is non-empty and has no whitespace at either end |
| `NoteEntryComponent.NoteEntry.Cancel` | src/components/noteEntry/NoteEntry.tsx:61-64 | Escape leaves editing mode and restores the default name without a rename |
| `NoteEntryComponent.NoteEntry.KeyDown` | src/components/noteEntry/NoteEntry.tsx:59-65 | Enter saves, Escape cancels and other keys change nothing |
| `NoteEntryComponent.NoteEntry.Blur` | src/components/noteEntry/NoteEntry.tsx:58 | blur saves |
| `NoteEntryComponent.NoteEntry.Click` | src/components/noteEntry/NoteEntry.tsx:70 | clicking calls `onSelect` with this note |
| `NoteEntryComponent.NoteEntry.MenuDelete` | src/components/noteEntry/NoteEntry.tsx:89 | "Delete" calls `onDelete` with this note's id |
| `NoteViewComponent.AfterDeleteSpec` | src/components/NoteView.tsx:54-69 | deleting removes every entry with the id. The rest stay in order, which is exactly the filter unless a stored note has the empty id. The selection is the blank note if the deleted note was current or the list is now empty, and is untouched otherwise. Ids stay unique |
| `NoteViewComponent.AfterRenameSpec` | src/components/NoteView.tsx:71-81 | renaming keeps the length and every id. Every note with the id gets the name and all other notes are unchanged. The current note is renamed when it is the renamed note |
| `NoteViewComponent.AfterSelectSpec` | src/components/NoteView.tsx:142-148 | selecting never changes the list. It changes the current note only when the id is listed, and then to the listed note |
| `NoteViewComponent.EntryName` | src/components/NoteView.tsx:94-95 | a row's name is never empty. It is the listed note's default name, or `Note ` followed by the id prefix when the id is not listed |
| `NoteViewComponent.NoteView.constructor` | src/components/NoteView.tsx:16-27 | the list is loaded through `useLocalStorage("notes", [])` and the current note is blank, so no editor is shown |
| `NoteViewComponent.NoteView.UpdateNote` | src/components/NoteView.tsx:30-38 | replace-only: the first entry with the current id becomes the current note and is stored. An absent id changes neither the list nor storage |
| `NoteViewComponent.NoteView.CreateNote` | src/components/NoteView.tsx:40-52 | a blank note with the fresh id becomes current, so the editor is shown |
| `NoteViewComponent.NoteView.AddNote` | src/components/NoteView.tsx:225-230 | "+" appends the new note at the end and makes it current. Ids stay unique and the list is persisted |
| `NoteViewComponent.NoteView.StartFirstNote` | src/components/NoteView.tsx:240-245 | the empty-state button replaces the list with just the new note and makes it current |
| `NoteViewComponent.NoteView.DeleteNote` | src/components/NoteView.tsx:54-69 | the new state is `AfterDelete` of the old one and is persisted. Deleting the current note hides the editor |
| `NoteViewComponent.NoteView.RenameNote` | src/components/NoteView.tsx:71-81 | the new state is `AfterRename` of the old one and is persisted |
| `NoteViewComponent.NoteView.SelectNote` | src/components/NoteView.tsx:142-148 | the new state is `AfterSelect` of the old one. Storage is written only when the id is listed |
| `NoteViewComponent.InlineEntry.constructor` | src/components/NoteView.tsx:90-91 | a row starts out not editing, with an empty input |
| `NoteViewComponent.InlineEntry.BeginRename` | src/components/NoteView.tsx:99-107 | editing starts from the row's shown name |
| `NoteViewComponent.InlineEntry.Change` | src/components/NoteView.tsx:129 | typing replaces the input text |
| `NoteViewComponent.InlineEntry.Save` | src/components/NoteView.tsx:109-116 | save always ends editing. Blank input reverts to the shown name and renames nothing; otherwise the note is renamed to the trimmed text |
| `NoteViewComponent.InlineEntry.Cancel` | src/components/NoteView.tsx:133-136 | Escape ends editing and reverts to the shown name without renaming |
| `NoteViewComponent.InlineEntry.KeyDown` | src/components/NoteView.tsx:131-137 | Enter saves, with `Save`'s outcome: blank input reverts to the shown name and neither the list nor storage changes; otherwise the note is renamed to the trimmed text and the list is stored. Escape cancels and other keys change nothing |
| `NoteViewComponent.InlineEntry.Blur` | src/components/NoteView.tsx:130 | leaving the input saves, with exactly `Save`'s outcome, including the revert on blank input and the storage write on a rename |
| `NoteViewComponent.InlineEntry.Click` | src/components/NoteView.tsx:142-149 | clicking the name selects the note. The list is stored again when the id is listed, and storage is untouched otherwise |
| `NoteViewComponent.InlineEntry.MenuDelete` | src/components/NoteView.tsx:166-170 | "Delete" deletes this row's id, and the remaining list is stored |
| `NoteComponent.Project` | src/components/Note.tsx:47-50 | one `{speaker, text}` pair per segment, in the same order, taken from that segment |
| `NoteComponent.ProjectAppend` | src/components/Note.tsx:47-50 | the projection preserves order: it distributes over concatenation |
| `NoteComponent.ProjectIgnoresTiming` | src/components/Note.tsx:47-50 | all other fields are dropped: segments that agree on speaker and text project alike |
| `NoteComponent.Heading` | src/components/Note.tsx:165-167 | the heading is `Editing <transcript>` when the trimmed transcript is non-empty, and `Editing Note <id prefix>` otherwise |
| `NoteComponent.HeadingMatchesDefaultName` | src/components/Note.tsx:165-167 | the heading names the note as its list row does, except for a transcript made only of whitespace |
| `NoteComponent.NoteEditor.constructor` | src/components/Note.tsx:18-22 | the editor starts with empty view state |
| `NoteComponent.NoteEditor.OnDiarizationResult` | src/components/Note.tsx:44-57 | a result without segments changes nothing and notifies no one. Otherwise the projected pairs become both the shown results and the note's `diarizationResults`, and then the view is updated. The list is stored when the note is listed, and storage is untouched otherwise |
| `NoteComponent.NoteEditor.OnSpeechResult` | src/components/Note.tsx:26-34 | speech text becomes the shown transcript and the note's transcript, and then the view is updated. The list is stored when the note is listed, and storage is untouched otherwise |
| `NoteComponent.NoteEditor.LoadNoteData` | src/components/Note.tsx:59-94 | on a switch the old URL is revoked and the transcript and results come from the new note. Its audio gets a new URL, or blob and URL are cleared when it has none. The file input is cleared and recording stops |
| `NoteComponent.NoteEditor.OnRecorderBlob` | src/components/Note.tsx:97-109 | a new recorder blob is shown with a new URL and written into the note, and the view is updated. The list is stored when the note is listed, and storage is untouched otherwise |
| `NoteComponent.NoteEditor.HandleStop` | src/components/Note.tsx:137-154 | stop writes the trimmed transcript, the blob and a new URL into the note and updates the view, but only when a blob exists. The list is then stored when the note is listed, and storage is untouched otherwise |

## Findings

| source | as written | input that shows it | evidently intended | confidence | as-written member | corrected member |
|---|---|---|---|---|---|---|
| src/hooks/useLocalStorage.tsx:9-28 | The state is initialised once, from the key of the first render. When the user id changes, the key follows the new user but the state keeps the previous user's value. The next `setValue` then writes that value under the new user's key | Alice's list is stored under `notes_alice` and loaded on mount. The session changes to Bob. Bob calls `setValue(xs => xs + [n])`, and `notes_bob` receives Alice's note plus `n` | Reload the state from the new key when the user changes, as `useNote` does in its effect (src/hooks/useNote.ts:49-56), so that users never see each other's notes | medium; not executed | `Storage.LocalStorage.Rerender`, `Storage.LeakAcrossUsers` | `Storage.LocalStorage.SwitchUser`, `Storage.NoLeakAcrossUsers` |

## Left out

- Authentication: the user id is an input. The session provider, the sign-in forms and the
  route guards are not modelled.
- Diarization transport, the voice recorder and speech recognition. These are network calls
  and browser APIs. Their results enter the model as parameters: the diarization reply, the
  recorder's blob and the speech text.
- JSON fidelity: storage holds abstract note values. A stored `audio` blob or `createdAt` date
  is not serialised, and neither is rebuilt on load. Text that parses to a value of another
  shape (for example `"null"`) is not distinguished from a well-formed list.
- Shared storage: each hook object holds its own copy of `localStorage`. Writes by the other
  hook, or by other tabs, are not seen.
- Storage write failures are all-or-nothing for a hook object (`writable`). The model does not
  let one write fail while another succeeds.
- Stale React closures and effect timing are not modelled: operations run in order on the
  latest state. One example is `updateNote` reading the list from before a `setNotes`.
- Aliasing: `renameNote` mutates `noteRef.current` in place, and that object may also sit in
  the list. The model works on note values, so only the resulting values are captured.
- The `if (noteRef.current)` guards in `Note.tsx` always hold in the model, because the ref
  always holds a note.
- `onClick?.(foundNote)` in `NoteView`'s inline row is not modelled: no caller passes `onClick`.
- Object URLs: creating one is a parameter. Revocation is recorded only where the code
  revokes: on a note switch. Unmount cleanup is not modelled.
- `handleDiarize`, `handleFileUpload` and `handleStart` only call into the diarization,
  recorder and speech hooks, which are not part of this model.
- Logging (`console.log`, `console.error`) is not modelled.
- `src/components/Results.tsx` is not part of this model.
