/** `NoteEntry`: one row of the note list, with inline renaming. The
    callbacks it receives (`onSelect`, `onRename`, `onDelete`) belong to its
    parent; the model records each call as an emitted event, in order. */
module NoteEntryComponent {
  import opened Text
  import opened Notes

  /** A callback invocation. */
  datatype Event = Selected(note: Note) | RenameRequested(id: string, name: string) | DeleteRequested(id: string)

  /** The keys the rename input reacts to; every other key is `OtherKey`. */
  datatype Key = EnterKey | EscapeKey | OtherKey

  class NoteEntry {
    /** The `note` prop, as of the latest render. */
    var note: Note
    /** The `isSelected` prop, as of the latest render. */
    var isSelected: bool
    /** `isEditing`. */
    var isEditing: bool
    /** `currentName`: the displayed name and, while editing, the input text. */
    var currentName: string
    /** The callback calls made so far. */
    var emitted: seq<Event>

    /** The entry starts out showing the note's default name. */
    constructor (note: Note, isSelected: bool)
      ensures this.note == note && this.isSelected == isSelected
      ensures !isEditing && currentName == DefaultName(note) && emitted == []
    {
      this.note := note;
      this.isSelected := isSelected;
      isEditing := false;
      currentName := DefaultName(note);
      emitted := [];
    }

    /** A re-render with new props, such as the renamed note the parent
        passes to the row it keys by id: `isEditing` and `currentName` are
        local state and keep their values, and Escape later reverts to the
        new note's default name. */
    method Rerender(newNote: Note, selected: bool)
      modifies this`note, this`isSelected
      ensures note == newNote && isSelected == selected
    {
      note := newNote;
      isSelected := selected;
    }

    /** The "Rename" menu item. */
    method BeginRename()
      modifies this`isEditing
      ensures isEditing
    {
      isEditing := true;
    }

    /** Typing into the input. */
    method Change(text: string)
      modifies this`currentName
      ensures currentName == text
    {
      currentName := text;
    }

    /** `handleSave`: leaves editing mode in every case; asks for exactly one
        rename, to the trimmed text, when that text is not blank, and for
        none otherwise. */
    method Save()
      modifies this`isEditing, this`emitted
      ensures !isEditing && currentName == old(currentName)
      ensures Trim(currentName) == "" ==> emitted == old(emitted)
      ensures Trim(currentName) != "" ==> emitted == old(emitted) + [RenameRequested(note.id, Trim(currentName))]
    {
      var newName := Trim(currentName);
      if newName == "" {
        isEditing := false;
      } else {
        var request := RenameRequested(note.id, newName);
        emitted := emitted + [request];
        isEditing := false;
      }
    }

    /** Escape: leaves editing mode and restores the default name without
        asking for a rename. */
    method Cancel()
      modifies this`isEditing, this`currentName
      ensures !isEditing && currentName == DefaultName(note)
    {
      isEditing := false;
      currentName := DefaultName(note);
    }

    /** The input's key handler: Enter saves, Escape cancels, other keys do
        nothing. */
    method KeyDown(k: Key)
      modifies this`isEditing, this`currentName, this`emitted
      ensures k.OtherKey? ==> isEditing == old(isEditing) && currentName == old(currentName) && emitted == old(emitted)
      ensures k.EnterKey? ==> !isEditing && currentName == old(currentName)
      ensures k.EnterKey? ==>
        emitted == old(emitted) + (if AllSpace(currentName) then [] else [RenameRequested(note.id, Trim(currentName))])
      ensures k.EscapeKey? ==> !isEditing && currentName == DefaultName(note) && emitted == old(emitted)
    {
      match k
      case EnterKey => Save();
      case EscapeKey => Cancel();
      case OtherKey =>
    }

    /** Leaving the input saves, like Enter. */
    method Blur()
      modifies this`isEditing, this`emitted
      ensures !isEditing && currentName == old(currentName)
      ensures emitted == old(emitted) +
        (if AllSpace(currentName) then [] else [RenameRequested(note.id, Trim(currentName))])
    {
      Save();
    }

    /** Clicking the name selects this note. */
    method Click()
      modifies this`emitted
      ensures emitted == old(emitted) + [Selected(note)]
    {
      emitted := emitted + [Selected(note)];
    }

    /** The "Delete" menu item asks to delete this note's id. */
    method MenuDelete()
      modifies this`emitted
      ensures emitted == old(emitted) + [DeleteRequested(note.id)]
    {
      emitted := emitted + [DeleteRequested(note.id)];
    }
  }

  /** A concrete run: the row is mounted for a note named "a", the parent
      re-renders it with the note renamed to "b", and a rename that is then
      cancelled (Escape) shows "b", not the name the row was mounted with. */
  method EscapeAfterParentRename() returns (shown: string)
    ensures shown == "b"
  {
    var n := NewNote("n-1", 0).(transcript := "a");
    var entry := new NoteEntry(n, true);
    assert entry.currentName == "a";
    var renamed := n.(transcript := "b");
    entry.Rerender(renamed, true);
    entry.BeginRename();
    entry.Change("c");
    entry.KeyDown(EscapeKey);
    shown := entry.currentName;
  }
}
