/** `useNote`: the user-aware note collection. The in-memory list, the
    current note (`noteRef.current`, which `currentNote` always refers to) and
    the browser storage slot `notes_<userId>`. */
module UseNote {
  import opened Wrappers
  import opened Notes
  import opened Storage

  /** The storage key of a user's collection. */
  function NotesKey(userId: Option<string>): string {
    UserKey("notes", userId)
  }

  /** `getUserNotes`: nothing without a signed-in user; otherwise the stored
      list, or the empty list when the slot is missing or does not parse. */
  function LoadNotes(storage: Store<seq<Note>>, userId: Option<string>): (r: seq<Note>)
    ensures !SignedIn(userId) ==> r == []
    ensures SignedIn(userId) && NotesKey(userId) in storage && storage[NotesKey(userId)].Json?
      ==> r == storage[NotesKey(userId)].value
    ensures SignedIn(userId) && (NotesKey(userId) !in storage || storage[NotesKey(userId)].Unreadable?)
      ==> r == []
  {
    if !SignedIn(userId) then [] else Load(storage, NotesKey(userId), [])
  }

  /** `saveNotes`: without a signed-in user, no write; otherwise the user's
      slot is overwritten, unless the browser rejects the write. */
  function SaveNotes(storage: Store<seq<Note>>, userId: Option<string>, notes: seq<Note>,
                     writable: bool): (s: Store<seq<Note>>)
    ensures !SignedIn(userId) || !writable ==> s == storage
    ensures SignedIn(userId) ==> s == Persist(storage, NotesKey(userId), notes, writable)
  {
    if !SignedIn(userId) then storage else Persist(storage, NotesKey(userId), notes, writable)
  }

  /** Saving then loading for the same user returns the saved list; saving
      for one user leaves every other user's list as it was. */
  lemma SaveThenLoad(storage: Store<seq<Note>>, u: Option<string>, other: Option<string>,
                     notes: seq<Note>, writable: bool)
    ensures SignedIn(u) && writable ==> LoadNotes(SaveNotes(storage, u, notes, writable), u) == notes
    ensures u != other ==>
      LoadNotes(SaveNotes(storage, u, notes, writable), other) == LoadNotes(storage, other)
  {
    if SignedIn(u) {
      LoadAfterPersist(storage, NotesKey(u), NotesKey(u), notes, writable, []);
      if u != other {
        UsersIsolated(storage, "notes", u, other, notes, writable, []);
      }
    }
  }

  /** A second save for the same user overwrites the first. */
  lemma SaveTwice(storage: Store<seq<Note>>, u: Option<string>, a: seq<Note>, b: seq<Note>, writable: bool)
    ensures SaveNotes(SaveNotes(storage, u, a, writable), u, b, writable) == SaveNotes(storage, u, b, writable)
  {
    if SignedIn(u) && writable {
      assert storage[NotesKey(u) := Json(a)][NotesKey(u) := Json(b)] == storage[NotesKey(u) := Json(b)];
    }
  }

  /** One mounted `useNote` hook. */
  class NoteStore {
    /** Whether the browser accepts writes. */
    const writable: bool
    /** `session?.user?.id`. */
    var userId: Option<string>
    /** The `notes` state. */
    var notes: seq<Note>
    /** `noteRef.current`. */
    var current: Note
    /** `localStorage`. */
    var storage: Store<seq<Note>>

    /** The persisted list is the in-memory one (for a signed-in user whose
        writes the browser accepts). */
    predicate Synced()
      reads this
    {
      LoadNotes(storage, userId) == notes
    }

    /** Mounting: the list is the user's stored list, the current note blank. */
    constructor (userId: Option<string>, storage: Store<seq<Note>>, writable: bool)
      ensures this.userId == userId && this.storage == storage && this.writable == writable
      ensures notes == LoadNotes(storage, userId) && current == BlankNote
      ensures Synced()
    {
      this.writable := writable;
      this.userId := userId;
      this.storage := storage;
      notes := LoadNotes(storage, userId);
      current := BlankNote;
    }

    /** The effect on a user change: reload the new user's list and reset the
        current note, so nothing of the previous user's list remains. */
    method ChangeUser(newUserId: Option<string>)
      modifies this
      ensures userId == newUserId && storage == old(storage)
      ensures notes == LoadNotes(storage, newUserId) && current == BlankNote
      ensures Synced()
    {
      userId := newUserId;
      notes := LoadNotes(storage, userId);
      current := BlankNote;
    }

    /** `createNote`: fails when no user is signed in; otherwise the blank
        note with a fresh id and the current time becomes the current note.
        The list is not touched: the note joins it on the next update. */
    method CreateNote(freshId: string, now: Timestamp) returns (r: Result<Note>)
      requires freshId != "" && !HasId(notes, freshId)
      modifies this`current
      ensures !SignedIn(userId) ==> r.Err? && current == old(current)
      ensures SignedIn(userId) ==> r == Ok(NewNote(freshId, now)) && current == r.value
    {
      if !SignedIn(userId) {
        return Err("Must be signed in to create notes");
      }
      var newNote := NewNote(freshId, now);
      current := newNote;
      return Ok(newNote);
    }

    /** `updateNote` (an upsert): the first entry with the current note's id
        becomes the current note; a current note with a non-empty id that is
        not listed is appended; the list is then persisted. Without a user,
        nothing changes. */
    method UpdateNote()
      modifies this`notes, this`storage
      ensures !SignedIn(userId) ==> notes == old(notes) && storage == old(storage)
      ensures SignedIn(userId) ==> notes == Upsert(old(notes), current)
      ensures storage == if SignedIn(userId) && (HasId(old(notes), current.id) || current.id != "")
        then SaveNotes(old(storage), userId, notes, writable) else old(storage)
      ensures UniqueIds(old(notes)) ==> UniqueIds(notes)
      ensures SignedIn(userId) && writable && (HasId(old(notes), current.id) || current.id != "") ==> Synced()
      ensures old(Synced()) && writable ==> Synced()
    {
      UpsertKeepsUnique(notes, current);
      if !SignedIn(userId) {
        return;
      }
      var noteIndex := FindIndex(notes, current.id);
      if noteIndex >= 0 {
        var updatedNotes := notes[noteIndex := current];
        notes := updatedNotes;
        storage := SaveNotes(storage, userId, updatedNotes, writable);
        SaveThenLoad(old(storage), userId, userId, updatedNotes, writable);
      } else if current.id != "" {
        var updatedNotes := notes + [current];
        notes := updatedNotes;
        storage := SaveNotes(storage, userId, updatedNotes, writable);
        SaveThenLoad(old(storage), userId, userId, updatedNotes, writable);
      }
    }

    /** `deleteNote`: keeps exactly the notes with another id, in order, and
        persists them; if the deleted note was current or the list is now
        empty, the current note becomes the blank note (and is upserted,
        which changes nothing unless a stored note has the empty id). */
    method DeleteNote(id: string)
      modifies this`notes, this`storage, this`current
      ensures !SignedIn(userId) ==> notes == old(notes) && storage == old(storage) && current == old(current)
      ensures SignedIn(userId) ==>
        var kept := RemoveId(old(notes), id);
        var reset := old(current).id == id || kept == [];
        current == (if reset then BlankNote else old(current)) &&
        notes == (if reset then Upsert(kept, BlankNote) else kept) &&
        storage == SaveNotes(old(storage), userId, notes, writable)
      ensures SignedIn(userId) && !HasId(old(notes), "") ==> notes == RemoveId(old(notes), id)
      ensures SignedIn(userId) ==> current.id != id || current == BlankNote
      ensures UniqueIds(old(notes)) ==> UniqueIds(notes)
      ensures SignedIn(userId) && writable ==> Synced()
    {
      if !SignedIn(userId) {
        return;
      }
      var updatedNotes := RemoveId(notes, id);
      if UniqueIds(notes) {
        RemoveIdKeepsUnique(notes, id);
      }
      notes := updatedNotes;
      storage := SaveNotes(storage, userId, updatedNotes, writable);
      if current.id == id || |updatedNotes| == 0 {
        current := BlankNote;
        if !HasId(updatedNotes, "") {
          UpsertBlank(updatedNotes);
        }
        UpdateNote();
        SaveTwice(old(storage), userId, updatedNotes, notes, writable);
      }
      SaveThenLoad(old(storage), userId, userId, notes, writable);
    }

    /** `renameNote`: only the transcripts of the notes with the id change
        (ids, order, length and other fields are kept) and the list is
        persisted; if the renamed note is current, its transcript changes
        too and it is upserted. */
    method RenameNote(id: string, newName: string)
      modifies this`notes, this`storage, this`current
      ensures !SignedIn(userId) ==> notes == old(notes) && storage == old(storage) && current == old(current)
      ensures SignedIn(userId) ==>
        var renamed := RenameId(old(notes), id, newName);
        current == (if old(current).id == id then old(current).(transcript := newName) else old(current)) &&
        notes == (if old(current).id == id then Upsert(renamed, current) else renamed) &&
        storage == SaveNotes(old(storage), userId, notes, writable)
      ensures UniqueIds(old(notes)) ==> UniqueIds(notes)
      ensures SignedIn(userId) && writable ==> Synced()
    {
      if !SignedIn(userId) {
        return;
      }
      var updatedNotes := RenameId(notes, id, newName);
      RenameIdKeepsIds(notes, id, newName);
      notes := updatedNotes;
      storage := SaveNotes(storage, userId, updatedNotes, writable);
      if current.id == id {
        current := current.(transcript := newName);
        UpdateNote();
        SaveTwice(old(storage), userId, updatedNotes, notes, writable);
      }
      SaveThenLoad(old(storage), userId, userId, notes, writable);
    }
  }
}
