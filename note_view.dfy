/** `NoteView`: the note list wired into the app. Its list lives in a
    `useLocalStorage("notes", [])` hook; its `note` ref is the current note.
    Unlike the user-aware hook, its update only replaces, and creation
    appends explicitly. */
module NoteViewComponent {
  import opened Text
  import opened Notes
  import opened Storage
  import NoteEntryComponent

  /** The state the operations act on: the list and the current note. */
  datatype View = View(notes: seq<Note>, current: Note)

  /** After `deleteNote(id)`: the notes with another id, in order; when the
      deleted note was current or nothing is left, the blank note becomes
      current and `updateNote` runs with it. */
  function AfterDelete(v: View, id: string): View {
    var kept := RemoveId(v.notes, id);
    if v.current.id == id || kept == [] then View(ReplaceFirst(kept, BlankNote), BlankNote)
    else View(kept, v.current)
  }

  /** After `renameNote(id, name)`: the matching transcripts are renamed; a
      renamed current note takes the name too and `updateNote` runs. */
  function AfterRename(v: View, id: string, name: string): View {
    var renamed := RenameId(v.notes, id, name);
    if v.current.id == id then
      var c := v.current.(transcript := name);
      View(ReplaceFirst(renamed, c), c)
    else View(renamed, v.current)
  }

  /** After clicking the entry for `id`: the first note with the id becomes
      current and `updateNote` runs; an unlisted id changes nothing. */
  function AfterSelect(v: View, id: string): View {
    match Find(v.notes, id)
    case Some(n) => View(ReplaceFirst(v.notes, n), n)
    case None => v
  }

  /** Deleting removes every entry with the id and keeps the rest in order
      (exactly the filter, unless a stored note has the empty id); the
      selection is cleared when the current note was deleted or the list
      became empty, and untouched otherwise; ids stay unique. */
  lemma AfterDeleteSpec(v: View, id: string)
    ensures var r := AfterDelete(v, id);
      !HasId(r.notes, id) &&
      (!HasId(v.notes, "") ==> r.notes == RemoveId(v.notes, id)) &&
      (v.current.id == id || RemoveId(v.notes, id) == [] ==> r.current == BlankNote) &&
      (v.current.id != id && RemoveId(v.notes, id) != [] ==> r.current == v.current) &&
      (UniqueIds(v.notes) ==> UniqueIds(r.notes))
  {
    var kept := RemoveId(v.notes, id);
    ReplaceFirstKeepsIds(kept, BlankNote);
    if UniqueIds(v.notes) {
      RemoveIdKeepsUnique(v.notes, id);
    }
  }

  /** Renaming keeps the length and every id in place (so ids stay unique),
      gives every note with the id the new transcript, leaves every other
      note as it was, and renames the current note when it is the one. */
  lemma AfterRenameSpec(v: View, id: string, name: string)
    ensures var r := AfterRename(v, id, name);
      |r.notes| == |v.notes| &&
      (forall i :: 0 <= i < |v.notes| ==> r.notes[i].id == v.notes[i].id) &&
      (forall i :: 0 <= i < |v.notes| && v.notes[i].id == id ==> r.notes[i].transcript == name) &&
      (forall i :: 0 <= i < |v.notes| && v.notes[i].id != id ==> r.notes[i] == v.notes[i]) &&
      (UniqueIds(v.notes) ==> UniqueIds(r.notes)) &&
      r.current == (if v.current.id == id then v.current.(transcript := name) else v.current)
  {
    var renamed := RenameId(v.notes, id, name);
    RenameIdKeepsIds(v.notes, id, name);
    var r := AfterRename(v, id, name);
    if v.current.id == id {
      var c := v.current.(transcript := name);
      ReplaceFirstKeepsIds(renamed, c);
      var k := FindIndex(renamed, id);
      assert r.notes == ReplaceFirst(renamed, c);
      forall i | 0 <= i < |v.notes|
        ensures r.notes[i].id == v.notes[i].id
        ensures v.notes[i].id == id ==> r.notes[i].transcript == name
        ensures v.notes[i].id != id ==> r.notes[i] == v.notes[i]
      {
        assert renamed[i].id == v.notes[i].id;
        if i != k {
          assert r.notes[i] == renamed[i];
        }
      }
    }
  }

  /** Selecting never changes the list, and changes the current note exactly
      when the id is listed, to the listed note. */
  lemma AfterSelectSpec(v: View, id: string)
    ensures AfterSelect(v, id).notes == v.notes
    ensures HasId(v.notes, id) ==> AfterSelect(v, id).current == v.notes[FindIndex(v.notes, id)]
    ensures !HasId(v.notes, id) ==> AfterSelect(v, id) == v
  {
    if HasId(v.notes, id) {
      ReplaceFirstWithListed(v.notes, id);
    }
  }

  /** The name an inline entry shows: the listed note's transcript, or
      `Note ` and the id's first field when the transcript is empty or the
      id is not listed. */
  function EntryName(notes: seq<Note>, id: string): (r: string)
    ensures r != []
    ensures HasId(notes, id) ==> r == DefaultName(notes[FindIndex(notes, id)])
    ensures !HasId(notes, id) ==> r == DisplayName("", id)
  {
    var transcript := match Find(notes, id) case Some(n) => n.transcript case None => "";
    DisplayName(transcript, id)
  }

  class NoteView {
    /** The `useLocalStorage("notes", [])` hook holding the list. */
    const notesStore: LocalStorage<seq<Note>>
    /** `note.current`, which `currentNote` always refers to. */
    var current: Note

    function State(): View
      reads this, notesStore
    {
      View(notesStore.value, current)
    }

    /** The editor is rendered exactly when the current note has an id. */
    predicate EditorShown()
      reads this
    {
      current.id != ""
    }

    /** The storage slot holds the list, written over `before`. */
    ghost predicate PersistedOver(before: Store<seq<Note>>)
      reads notesStore
    {
      notesStore.storage == Persist(before, notesStore.CurrentKey(), notesStore.value, notesStore.writable)
    }

    constructor (userId: Wrappers.Option<string>, storage: Store<seq<Note>>, writable: bool)
      ensures fresh(notesStore)
      ensures notesStore.key == "notes" && notesStore.initialValue == [] && notesStore.userId == userId
      ensures notesStore.storage == storage && notesStore.writable == writable
      ensures State() == View(Load(storage, UserKey("notes", userId), []), BlankNote)
      ensures !EditorShown()
    {
      notesStore := new LocalStorage<seq<Note>>("notes", [], userId, storage, writable);
      current := BlankNote;
    }

    /** `updateNote`: the first entry with the current note's id becomes the
        current note and the list is stored; when no entry has the id,
        neither the list nor the storage changes (no append). */
    method UpdateNote()
      modifies notesStore
      ensures notesStore.userId == old(notesStore.userId)
      ensures State() == View(ReplaceFirst(old(notesStore.value), current), current)
      ensures |notesStore.value| == |old(notesStore.value)|
      ensures HasId(old(notesStore.value), current.id) ==> PersistedOver(old(notesStore.storage))
      ensures !HasId(old(notesStore.value), current.id) ==> notesStore.storage == old(notesStore.storage)
    {
      var noteIndex := FindIndex(notesStore.value, current.id);
      if noteIndex >= 0 {
        var updatedNotes := notesStore.value[noteIndex := current];
        notesStore.SetValue(Value(updatedNotes));
      }
    }

    /** `createNote`: the blank note with a fresh id and the current time
        becomes the current note; the list is not touched. */
    method CreateNote(freshId: string, now: Timestamp) returns (n: Note)
      requires freshId != "" && !HasId(notesStore.value, freshId)
      modifies this`current
      ensures n == NewNote(freshId, now) && current == n && EditorShown()
    {
      n := NewNote(freshId, now);
      current := n;
    }

    /** The "+" button: a new note is appended at the end and made current. */
    method AddNote(freshId: string, now: Timestamp) returns (n: Note)
      requires freshId != "" && !HasId(notesStore.value, freshId)
      modifies this, notesStore
      ensures notesStore.userId == old(notesStore.userId)
      ensures n == NewNote(freshId, now)
      ensures State() == View(old(notesStore.value) + [n], n) && EditorShown()
      ensures UniqueIds(old(notesStore.value)) ==> UniqueIds(notesStore.value)
      ensures PersistedOver(old(notesStore.storage))
    {
      n := CreateNote(freshId, now);
      var before := notesStore.value;
      notesStore.SetValue(Value(before + [n]));
      current := n;
      ReplaceFirstAppended(before, n);
      UpdateNote();
      UpsertKeepsUnique(before, n);
    }

    /** The empty-state "New Note" button: the list becomes just the new
        note, which is made current. */
    method StartFirstNote(freshId: string, now: Timestamp) returns (n: Note)
      requires freshId != "" && !HasId(notesStore.value, freshId)
      modifies this, notesStore
      ensures notesStore.userId == old(notesStore.userId)
      ensures n == NewNote(freshId, now)
      ensures State() == View([n], n) && EditorShown()
      ensures PersistedOver(old(notesStore.storage))
    {
      n := CreateNote(freshId, now);
      notesStore.SetValue(Value([n]));
      current := n;
      ReplaceFirstAppended([], n);
      assert [] + [n] == [n];
      UpdateNote();
    }

    /** `deleteNote`; see `AfterDelete` and `AfterDeleteSpec`. */
    method DeleteNote(id: string)
      modifies this, notesStore
      ensures notesStore.userId == old(notesStore.userId)
      ensures State() == AfterDelete(old(State()), id)
      ensures old(current).id == id || RemoveId(old(notesStore.value), id) == [] ==> !EditorShown()
      ensures PersistedOver(old(notesStore.storage))
    {
      var updatedNotes := RemoveId(notesStore.value, id);
      notesStore.SetValue(Value(updatedNotes));
      if current.id == id || |updatedNotes| == 0 {
        current := BlankNote;
        UpdateNote();
        PersistTwice(old(notesStore.storage), notesStore.CurrentKey(), updatedNotes,
                     notesStore.value, notesStore.writable);
      }
    }

    /** `renameNote`; see `AfterRename` and `AfterRenameSpec`. */
    method RenameNote(id: string, newName: string)
      modifies this, notesStore
      ensures notesStore.userId == old(notesStore.userId)
      ensures State() == AfterRename(old(State()), id, newName)
      ensures PersistedOver(old(notesStore.storage))
    {
      var updatedNotes := RenameId(notesStore.value, id, newName);
      notesStore.SetValue(Value(updatedNotes));
      if current.id == id {
        current := current.(transcript := newName);
        UpdateNote();
        PersistTwice(old(notesStore.storage), notesStore.CurrentKey(), updatedNotes,
                     notesStore.value, notesStore.writable);
      }
    }

    /** Clicking an inline entry; see `AfterSelect` and `AfterSelectSpec`. */
    method SelectNote(id: string)
      modifies this, notesStore
      ensures notesStore.userId == old(notesStore.userId)
      ensures State() == AfterSelect(old(State()), id)
      ensures HasId(old(notesStore.value), id) ==> PersistedOver(old(notesStore.storage))
      ensures !HasId(old(notesStore.value), id) ==> notesStore.storage == old(notesStore.storage)
    {
      var foundNote := Find(notesStore.value, id);
      if foundNote.Some? {
        current := foundNote.value;
        UpdateNote();
      }
    }
  }

  /** The list row `NoteView` defines inline: its rename input reverts to the
      shown name when left blank, and its callbacks act on the view directly. */
  class InlineEntry {
    const view: NoteView
    const id: string
    var isEditing: bool
    var currentName: string

    /** `noteName`, recomputed from the view's list on every render. */
    function NoteName(): string
      reads view, view.notesStore
    {
      EntryName(view.notesStore.value, id)
    }

    constructor (view: NoteView, id: string)
      ensures this.view == view && this.id == id && !isEditing && currentName == ""
    {
      this.view := view;
      this.id := id;
      isEditing := false;
      currentName := "";
    }

    /** "Rename": editing starts from the shown name. */
    method BeginRename()
      modifies this`isEditing, this`currentName
      ensures isEditing && currentName == NoteName()
    {
      isEditing := true;
      currentName := NoteName();
    }

    method Change(text: string)
      modifies this`currentName
      ensures currentName == text
    {
      currentName := text;
    }

    /** `handleSave`: leaves editing mode in every case; blank input reverts
        to the shown name and renames nothing; otherwise the note is renamed
        to the trimmed input. */
    method Save()
      modifies this`isEditing, this`currentName, view, view.notesStore
      ensures !isEditing
      ensures view.notesStore.userId == old(view.notesStore.userId)
      ensures AllSpace(old(currentName)) ==>
        currentName == old(NoteName()) && view.State() == old(view.State()) &&
        view.notesStore.storage == old(view.notesStore.storage)
      ensures !AllSpace(old(currentName)) ==>
        currentName == old(currentName) &&
        view.State() == AfterRename(old(view.State()), id, Trim(old(currentName))) &&
        view.PersistedOver(old(view.notesStore.storage))
    {
      var trimmed := Trim(currentName);
      if trimmed == "" {
        currentName := NoteName();
      } else {
        view.RenameNote(id, trimmed);
      }
      isEditing := false;
    }

    /** Escape: leaves editing mode and reverts to the shown name. */
    method Cancel()
      modifies this`isEditing, this`currentName
      ensures !isEditing && currentName == NoteName()
    {
      isEditing := false;
      currentName := NoteName();
    }

    /** Enter saves; Escape cancels; other keys do nothing. */
    method KeyDown(k: NoteEntryComponent.Key)
      modifies this`isEditing, this`currentName, view, view.notesStore
      ensures view.notesStore.userId == old(view.notesStore.userId)
      ensures k.OtherKey? ==> isEditing == old(isEditing) && currentName == old(currentName)
      ensures !k.EnterKey? ==>
        view.State() == old(view.State()) && view.notesStore.storage == old(view.notesStore.storage)
      ensures k.EscapeKey? ==> !isEditing && currentName == NoteName()
      ensures k.EnterKey? ==> !isEditing
      ensures k.EnterKey? && AllSpace(old(currentName)) ==>
        currentName == old(NoteName()) && view.State() == old(view.State()) &&
        view.notesStore.storage == old(view.notesStore.storage)
      ensures k.EnterKey? && !AllSpace(old(currentName)) ==>
        currentName == old(currentName) &&
        view.State() == AfterRename(old(view.State()), id, Trim(old(currentName))) &&
        view.PersistedOver(old(view.notesStore.storage))
    {
      match k
      case EnterKey => Save();
      case EscapeKey => Cancel();
      case OtherKey =>
    }

    /** Leaving the input saves, like Enter. */
    method Blur()
      modifies this`isEditing, this`currentName, view, view.notesStore
      ensures !isEditing
      ensures view.notesStore.userId == old(view.notesStore.userId)
      ensures AllSpace(old(currentName)) ==>
        currentName == old(NoteName()) && view.State() == old(view.State()) &&
        view.notesStore.storage == old(view.notesStore.storage)
      ensures !AllSpace(old(currentName)) ==>
        currentName == old(currentName) &&
        view.State() == AfterRename(old(view.State()), id, Trim(old(currentName))) &&
        view.PersistedOver(old(view.notesStore.storage))
    {
      Save();
    }

    /** Clicking the name selects the note; the list is stored again only
        when the id is listed. */
    method Click()
      modifies view, view.notesStore
      ensures view.notesStore.userId == old(view.notesStore.userId)
      ensures view.State() == AfterSelect(old(view.State()), id)
      ensures HasId(old(view.notesStore.value), id) ==> view.PersistedOver(old(view.notesStore.storage))
      ensures !HasId(old(view.notesStore.value), id) ==>
        view.notesStore.storage == old(view.notesStore.storage)
    {
      view.SelectNote(id);
    }

    /** "Delete" deletes this entry's id and stores the remaining list. */
    method MenuDelete()
      modifies view, view.notesStore
      ensures view.notesStore.userId == old(view.notesStore.userId)
      ensures view.State() == AfterDelete(old(view.State()), id)
      ensures view.PersistedOver(old(view.notesStore.storage))
    {
      view.DeleteNote(id);
    }
  }
}
