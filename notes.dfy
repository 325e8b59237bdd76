/** The note record (`NoteModel`) and the list transforms both note stores
    build on: `findIndex`, `find`, `filter` by id, `map` over a matching id,
    replacement at an index and append. */
module Notes {
  import opened Wrappers
  import opened Text

  /** `createdAt`: milliseconds since the epoch; `new Date()` is a parameter. */
  type Timestamp = nat

  /** An audio `Blob`: an opaque token, compared only for identity. */
  datatype Blob = Blob(handle: nat)

  /** An object URL (`URL.createObjectURL`), kept as its text. */
  type Url = string

  /** One `{speaker, text}` pair of `diarizationResults`. */
  datatype Segment = Segment(speaker: string, text: string)

  /** A note record. */
  datatype Note = Note(
    id: string,
    transcript: string,
    diarizationResults: seq<Segment>,
    createdAt: Option<Timestamp>,
    audio: Option<Blob>,
    url: Option<Url>)

  /** The blank note (`initialNote`) that stands for "no note selected": empty id, nothing recorded. */
  const BlankNote: Note := Note("", "", [], None, None, None)

  /** The note `createNote` builds from a fresh id and the current time. */
  function NewNote(freshId: string, now: Timestamp): (n: Note)
    ensures n.id == freshId && n.createdAt == Some(now)
    ensures n == BlankNote.(id := freshId, createdAt := Some(now))
  {
    Note(freshId, "", [], Some(now), None, None)
  }

  /** The name shown for a note: its transcript, or `Note ` and the id's
      first '-'-separated field when the transcript is empty. */
  function DisplayName(transcript: string, id: string): (r: string)
    ensures r != []
    ensures transcript != [] ==> r == transcript
    ensures transcript == [] ==> |r| >= 5 && r[..5] == "Note " && r[5..] <= id && '-' !in r[5..]
  {
    if transcript != [] then transcript else "Note " + IdPrefix(id)
  }

  /** The default name of a note entry. */
  function DefaultName(n: Note): (r: string)
    ensures r != []
    ensures n.transcript != [] ==> r == n.transcript
  {
    DisplayName(n.transcript, n.id)
  }

  /** Some note in `notes` has this id. */
  predicate HasId(notes: seq<Note>, id: string) {
    exists i :: 0 <= i < |notes| && notes[i].id == id
  }

  /** No two notes in `notes` share an id. */
  predicate UniqueIds(notes: seq<Note>) {
    forall i, j :: 0 <= i < j < |notes| ==> notes[i].id != notes[j].id
  }

  /** `notes.findIndex(n => n.id === id)`: the first position holding the id,
      or -1 when no note has it. */
  function FindIndex(notes: seq<Note>, id: string): (r: int)
    ensures -1 <= r < |notes|
    ensures r == -1 <==> !HasId(notes, id)
    ensures r >= 0 ==> notes[r].id == id && forall j :: 0 <= j < r ==> notes[j].id != id
  {
    if notes == [] then -1
    else if notes[0].id == id then 0
    else
      var k := FindIndex(notes[1..], id);
      assert HasId(notes, id) ==> HasId(notes[1..], id) by {
        if HasId(notes, id) {
          var i :| 0 <= i < |notes| && notes[i].id == id;
          assert notes[1..][i - 1].id == id;
        }
      }
      if k == -1 then -1 else k + 1
  }

  /** `notes.find(n => n.id === id)`: the first note with the id, if any. */
  function Find(notes: seq<Note>, id: string): (r: Option<Note>)
    ensures r.Some? <==> HasId(notes, id)
    ensures r.Some? ==> r.value.id == id && r.value == notes[FindIndex(notes, id)]
  {
    var i := FindIndex(notes, id);
    if i >= 0 then Some(notes[i]) else None
  }

  /** `notes.filter(n => n.id !== id)`: exactly the notes with another id. */
  function RemoveId(notes: seq<Note>, id: string): (r: seq<Note>)
    ensures |r| <= |notes|
    ensures forall n :: n in r <==> n in notes && n.id != id
    ensures !HasId(r, id)
    ensures !HasId(notes, id) ==> r == notes
  {
    if notes == [] then []
    else
      var rest := RemoveId(notes[1..], id);
      assert !HasId(notes, id) ==> !HasId(notes[1..], id) by {
        if HasId(notes[1..], id) {
          var i :| 0 <= i < |notes[1..]| && notes[1..][i].id == id;
          assert notes[i + 1].id == id;
        }
      }
      assert notes == [notes[0]] + notes[1..];
      if notes[0].id == id then rest else [notes[0]] + rest
  }

  /** The filter keeps the survivors in their original order: it distributes
      over concatenation. */
  lemma {:induction false} RemoveIdAppend(a: seq<Note>, b: seq<Note>, id: string)
    ensures RemoveId(a + b, id) == RemoveId(a, id) + RemoveId(b, id)
  {
    if a != [] {
      assert (a + b)[0] == a[0];
      assert (a + b)[1..] == a[1..] + b;
      RemoveIdAppend(a[1..], b, id);
    } else {
      assert a + b == b;
    }
  }

  /** Removing an id changes the length exactly when the id was present. */
  lemma {:induction false} RemoveIdLength(notes: seq<Note>, id: string)
    ensures |RemoveId(notes, id)| < |notes| <==> HasId(notes, id)
  {
    if notes != [] {
      RemoveIdLength(notes[1..], id);
      if notes[0].id != id && HasId(notes, id) {
        var i :| 0 <= i < |notes| && notes[i].id == id;
        assert notes[1..][i - 1].id == id;
      }
      if HasId(notes[1..], id) {
        var i :| 0 <= i < |notes[1..]| && notes[1..][i].id == id;
        assert notes[i + 1].id == id;
      }
    }
  }

  /** Putting a note in front of a list with unique ids keeps them unique
      when no note of the list shares its id. */
  lemma UniqueCons(x: Note, s: seq<Note>)
    requires UniqueIds(s)
    requires forall n :: n in s ==> n.id != x.id
    ensures UniqueIds([x] + s)
  {
    var r := [x] + s;
    forall i, j | 0 <= i < j < |r| ensures r[i].id != r[j].id {
      assert r[j] == s[j - 1];
      if i > 0 {
        assert r[i] == s[i - 1];
      }
    }
  }

  /** The filter never introduces a duplicate id. */
  lemma {:induction false} RemoveIdKeepsUnique(notes: seq<Note>, id: string)
    requires UniqueIds(notes)
    ensures UniqueIds(RemoveId(notes, id))
  {
    if notes != [] {
      var tail := notes[1..];
      RemoveIdKeepsUnique(tail, id);
      if notes[0].id != id {
        var rest := RemoveId(tail, id);
        forall n | n in rest ensures n.id != notes[0].id {
          var k :| 0 <= k < |tail| && tail[k] == n;
          assert notes[k + 1] == n;
        }
        UniqueCons(notes[0], rest);
      }
    }
  }

  /** `notes.map(n => n.id === id ? {...n, transcript: name} : n)`: same
      length and order; only transcripts change, and exactly those of the
      notes with the id become `name`. */
  function RenameId(notes: seq<Note>, id: string, name: string): (r: seq<Note>)
    ensures |r| == |notes|
    ensures forall i :: 0 <= i < |notes| ==> r[i] == notes[i].(transcript := r[i].transcript)
    ensures forall i :: 0 <= i < |notes| ==>
      r[i].transcript == if notes[i].id == id then name else notes[i].transcript
  {
    if notes == [] then []
    else
      var head := if notes[0].id == id then notes[0].(transcript := name) else notes[0];
      [head] + RenameId(notes[1..], id, name)
  }

  /** Renaming keeps every id where it was, so it keeps ids unique and keeps
      the same ids present. */
  lemma RenameIdKeepsIds(notes: seq<Note>, id: string, name: string)
    ensures UniqueIds(notes) ==> UniqueIds(RenameId(notes, id, name))
    ensures forall k :: HasId(RenameId(notes, id, name), k) <==> HasId(notes, k)
  {
    var r := RenameId(notes, id, name);
    assert forall i :: 0 <= i < |r| ==> r[i].id == notes[i].id;
  }

  /** What `updateNote` does in both stores when the id is present: the first
      entry with `n`'s id becomes `n`; when the id is absent, nothing changes. */
  function ReplaceFirst(notes: seq<Note>, n: Note): (r: seq<Note>)
    ensures |r| == |notes|
    ensures !HasId(notes, n.id) ==> r == notes
    ensures forall j :: 0 <= j < |notes| ==>
      r[j] == if j == FindIndex(notes, n.id) then n else notes[j]
  {
    var i := FindIndex(notes, n.id);
    if i >= 0 then notes[i := n] else notes
  }

  /** Replacement keeps the ids at every position, hence their uniqueness. */
  lemma ReplaceFirstKeepsIds(notes: seq<Note>, n: Note)
    ensures forall j :: 0 <= j < |notes| ==> ReplaceFirst(notes, n)[j].id == notes[j].id
    ensures UniqueIds(notes) ==> UniqueIds(ReplaceFirst(notes, n))
  {
  }

  /** Replacing an entry by the first note with its own id changes nothing:
      selecting a listed note and saving it leaves the list as it was. */
  lemma ReplaceFirstWithListed(notes: seq<Note>, id: string)
    requires HasId(notes, id)
    ensures ReplaceFirst(notes, notes[FindIndex(notes, id)]) == notes
  {
    var i := FindIndex(notes, id);
    assert notes[i := notes[i]] == notes;
  }

  /** A note appended with a fresh id is found at the end, so saving it again
      leaves the list as it was. */
  lemma ReplaceFirstAppended(notes: seq<Note>, n: Note)
    requires !HasId(notes, n.id)
    ensures FindIndex(notes + [n], n.id) == |notes|
    ensures ReplaceFirst(notes + [n], n) == notes + [n]
  {
    var s := notes + [n];
    assert s[|notes|].id == n.id;
    assert s[|notes| := n] == s;
  }

  /** `updateNote` in the user-aware hook: replace the first entry with the
      current note's id; otherwise append the note when its id is non-empty. */
  function Upsert(notes: seq<Note>, n: Note): (r: seq<Note>)
    ensures HasId(notes, n.id) ==> r == ReplaceFirst(notes, n)
    ensures !HasId(notes, n.id) && n.id != [] ==> r == notes + [n]
    ensures !HasId(notes, n.id) && n.id == [] ==> r == notes
  {
    if FindIndex(notes, n.id) >= 0 then ReplaceFirst(notes, n)
    else if n.id != [] then notes + [n]
    else notes
  }

  /** An upsert never introduces a duplicate id, and afterwards a note with a
      non-empty id is in the list, at its old position or at the end. */
  lemma UpsertKeepsUnique(notes: seq<Note>, n: Note)
    ensures UniqueIds(notes) ==> UniqueIds(Upsert(notes, n))
    ensures n.id != [] ==> n in Upsert(notes, n)
    ensures |Upsert(notes, n)| == if HasId(notes, n.id) || n.id == [] then |notes| else |notes| + 1
  {
    ReplaceFirstKeepsIds(notes, n);
    var r := Upsert(notes, n);
    if HasId(notes, n.id) {
      assert r[FindIndex(notes, n.id)] == n;
    } else if n.id != [] {
      assert r[|notes|] == n;
      if UniqueIds(notes) {
        forall i, j | 0 <= i < j < |r| ensures r[i].id != r[j].id {
          if j == |notes| {
            assert r[i] == notes[i];
          } else {
            assert r[i] == notes[i] && r[j] == notes[j];
          }
        }
      }
    }
  }

  /** With no stored note under the empty id, upserting the blank note is a
      no-op. */
  lemma UpsertBlank(notes: seq<Note>)
    requires !HasId(notes, "")
    ensures Upsert(notes, BlankNote) == notes
    ensures ReplaceFirst(notes, BlankNote) == notes
  {
  }
}
