/** `Note`: the editor for the current note. It shares the `NoteView`'s
    note ref, writes recording, speech and diarization results into it, and
    notifies the view through `onResult`, which is the view's `updateNote`. */
module NoteComponent {
  import opened Wrappers
  import opened Text
  import opened Notes
  import opened NoteViewComponent

  /** A word of a diarization segment. Timings and scores are carried but
      never used, so reals stand in for JavaScript numbers. */
  datatype Word = Word(word: string, start: real, end: real, probability: real)

  /** A segment as the diarization service returns it. */
  datatype DiarizationSegment = DiarizationSegment(
    text: string, start: real, end: real, speaker: string, words: seq<Word>, avgLogprob: real)

  /** The service's reply; `segments` may be missing. */
  datatype DiarizationResponse = DiarizationResponse(
    segments: Option<seq<DiarizationSegment>>, language: Option<string>, numSpeakers: Option<int>)

  /** `segments.map(s => ({speaker: s.speaker, text: s.text}))`: one pair per
      segment, in the same order. */
  function Project(segments: seq<DiarizationSegment>): (r: seq<Segment>)
    ensures |r| == |segments|
    ensures forall i :: 0 <= i < |segments| ==>
      r[i] == Segment(segments[i].speaker, segments[i].text)
  {
    if segments == [] then [] else [Segment(segments[0].speaker, segments[0].text)] + Project(segments[1..])
  }

  /** The projection keeps order: it distributes over concatenation. */
  lemma {:induction false} ProjectAppend(a: seq<DiarizationSegment>, b: seq<DiarizationSegment>)
    ensures Project(a + b) == Project(a) + Project(b)
  {
    if a != [] {
      assert (a + b)[1..] == a[1..] + b;
      ProjectAppend(a[1..], b);
    } else {
      assert a + b == b;
    }
  }

  /** The projection drops every other field: segments that agree on speaker
      and text project alike, whatever their timings and words. */
  lemma ProjectIgnoresTiming(a: seq<DiarizationSegment>, b: seq<DiarizationSegment>)
    requires |a| == |b|
    requires forall i :: 0 <= i < |a| ==> a[i].speaker == b[i].speaker && a[i].text == b[i].text
    ensures Project(a) == Project(b)
  {
    assert forall i :: 0 <= i < |a| ==> Project(a)[i] == Project(b)[i];
  }

  /** The heading: `Editing <transcript>` when the trimmed transcript is not
      blank, otherwise `Editing Note <id prefix>`. */
  function Heading(n: Note): (r: string)
    ensures |r| > 8 && r[..8] == "Editing "
    ensures !AllSpace(n.transcript) ==> r[8..] == n.transcript
    ensures AllSpace(n.transcript) ==> r[8..] == DisplayName("", n.id)
  {
    if Trim(n.transcript) != "" then "Editing " + n.transcript
    else "Editing " + "Note " + IdPrefix(n.id)
  }

  /** The heading names the note as its list entry does, except that a
      transcript of only whitespace counts as empty here and as a name there. */
  lemma HeadingMatchesDefaultName(n: Note)
    ensures !AllSpace(n.transcript) || n.transcript == [] ==> Heading(n) == "Editing " + DefaultName(n)
    ensures AllSpace(n.transcript) && n.transcript != [] ==> Heading(n) != "Editing " + DefaultName(n)
  {
    var r := Heading(n);
    assert r == r[..8] + r[8..];
    if AllSpace(n.transcript) && n.transcript != [] {
      assert ("Editing " + DefaultName(n))[8..] == n.transcript;
      assert IsSpace(n.transcript[0]);
      assert r[8..][0] == 'N';
    }
  }

  class NoteEditor {
    /** The view whose note ref this editor shares and whose `updateNote`
        is its `onResult`. */
    const view: NoteView
    /** `transcriptOutput`. */
    var transcriptOutput: string
    /** The shown `diarizationResults`. */
    var results: seq<Segment>
    /** `localAudioBlob`. */
    var localBlob: Option<Blob>
    /** `audioUrl`. */
    var audioUrl: Option<Url>
    /** The file input's value. */
    var fileValue: string
    /** Whether the voice recorder is recording. */
    var recording: bool
    /** Object URLs revoked so far. */
    var revoked: set<Url>

    constructor (view: NoteView)
      ensures this.view == view
      ensures transcriptOutput == "" && results == [] && localBlob == None && audioUrl == None
      ensures fileValue == "" && !recording && revoked == {}
    {
      this.view := view;
      transcriptOutput := "";
      results := [];
      localBlob := None;
      audioUrl := None;
      fileValue := "";
      recording := false;
      revoked := {};
    }

    /** The diarization `onResult`: a reply without segments changes nothing
        and notifies no one; otherwise the projected pairs become both the
        shown results and the note's `diarizationResults`, then the view is
        notified, which stores the list when the note is listed. */
    method OnDiarizationResult(result: Option<DiarizationResponse>)
      modifies this`results, view, view.notesStore
      ensures view.notesStore.userId == old(view.notesStore.userId)
      ensures result.None? || result.value.segments.None? ==>
        results == old(results) && view.State() == old(view.State()) &&
        view.notesStore.storage == old(view.notesStore.storage)
      ensures result.Some? && result.value.segments.Some? ==>
        var pairs := Project(result.value.segments.value);
        results == pairs &&
        view.current == old(view.current).(diarizationResults := pairs) &&
        view.notesStore.value == ReplaceFirst(old(view.notesStore.value), view.current)
      ensures result.Some? && result.value.segments.Some? && HasId(old(view.notesStore.value), view.current.id) ==>
        view.PersistedOver(old(view.notesStore.storage))
      ensures result.Some? && result.value.segments.Some? && !HasId(old(view.notesStore.value), view.current.id) ==>
        view.notesStore.storage == old(view.notesStore.storage)
    {
      if result.None? || result.value.segments.None? {
        return;
      }
      var processedResults := Project(result.value.segments.value);
      results := processedResults;
      view.current := view.current.(diarizationResults := processedResults);
      view.UpdateNote();
    }

    /** The speech-recognition `onResult`: the text becomes the shown and the
        note's transcript, then the view is notified, which stores the list
        when the note is listed. */
    method OnSpeechResult(text: string)
      modifies this`transcriptOutput, view, view.notesStore
      ensures view.notesStore.userId == old(view.notesStore.userId)
      ensures transcriptOutput == text
      ensures view.current == old(view.current).(transcript := text)
      ensures view.notesStore.value == ReplaceFirst(old(view.notesStore.value), view.current)
      ensures HasId(old(view.notesStore.value), view.current.id) ==>
        view.PersistedOver(old(view.notesStore.storage))
      ensures !HasId(old(view.notesStore.value), view.current.id) ==>
        view.notesStore.storage == old(view.notesStore.storage)
    {
      transcriptOutput := text;
      view.current := view.current.(transcript := text);
      view.UpdateNote();
    }

    /** `loadNoteData` on a note switch: the previous object URL is revoked;
        the shown transcript and results become the note's; a note with audio
        gets a new URL for it, a note without clears blob and URL; the file
        input is cleared and recording stops. Nothing of the previous note's
        state remains. */
    method LoadNoteData(newUrl: Url)
      modifies this
      ensures revoked == old(revoked) + (if old(audioUrl).Some? then {old(audioUrl).value} else {})
      ensures transcriptOutput == view.current.transcript
      ensures results == view.current.diarizationResults
      ensures localBlob == view.current.audio
      ensures audioUrl == if view.current.audio.Some? then Some(newUrl) else None
      ensures fileValue == "" && !recording
    {
      if audioUrl.Some? {
        revoked := revoked + {audioUrl.value};
      }
      var n := view.current;
      transcriptOutput := n.transcript;
      results := n.diarizationResults;
      if n.audio.Some? {
        localBlob := n.audio;
        audioUrl := Some(newUrl);
      } else {
        localBlob := None;
        audioUrl := None;
      }
      fileValue := "";
      recording := false;
    }

    /** The recorder's new blob: it is shown with a new URL and written into
        the note, then the view is notified, which stores the list when the
        note is listed. */
    method OnRecorderBlob(blob: Option<Blob>, newUrl: Url)
      modifies this`localBlob, this`audioUrl, view, view.notesStore
      ensures view.notesStore.userId == old(view.notesStore.userId)
      ensures blob.None? ==>
        localBlob == old(localBlob) && audioUrl == old(audioUrl) &&
        view.State() == old(view.State()) && view.notesStore.storage == old(view.notesStore.storage)
      ensures blob.Some? ==>
        localBlob == blob && audioUrl == Some(newUrl) &&
        view.current == old(view.current).(audio := blob, url := Some(newUrl)) &&
        view.notesStore.value == ReplaceFirst(old(view.notesStore.value), view.current)
      ensures blob.Some? && HasId(old(view.notesStore.value), view.current.id) ==>
        view.PersistedOver(old(view.notesStore.storage))
      ensures blob.Some? && !HasId(old(view.notesStore.value), view.current.id) ==>
        view.notesStore.storage == old(view.notesStore.storage)
    {
      if blob.Some? {
        localBlob := blob;
        audioUrl := Some(newUrl);
        view.current := view.current.(audio := blob, url := Some(newUrl));
        view.UpdateNote();
      }
    }

    /** `handleStop`: recording stops; only when the recorder holds a blob,
        the trimmed transcript, the blob and a new URL are written into the
        note and the view is notified, which stores the list when the note
        is listed. */
    method HandleStop(recorderBlob: Option<Blob>, newUrl: Url)
      modifies this`recording, this`audioUrl, view, view.notesStore
      ensures !recording
      ensures view.notesStore.userId == old(view.notesStore.userId)
      ensures recorderBlob.None? ==>
        audioUrl == old(audioUrl) &&
        view.State() == old(view.State()) && view.notesStore.storage == old(view.notesStore.storage)
      ensures recorderBlob.Some? ==>
        audioUrl == Some(newUrl) &&
        view.current == old(view.current).(transcript := Trim(transcriptOutput), audio := recorderBlob, url := Some(newUrl)) &&
        view.notesStore.value == ReplaceFirst(old(view.notesStore.value), view.current)
      ensures recorderBlob.Some? && HasId(old(view.notesStore.value), view.current.id) ==>
        view.PersistedOver(old(view.notesStore.storage))
      ensures recorderBlob.Some? && !HasId(old(view.notesStore.value), view.current.id) ==>
        view.notesStore.storage == old(view.notesStore.storage)
    {
      recording := false;
      if recorderBlob.Some? {
        audioUrl := Some(newUrl);
        view.current := view.current.(transcript := Trim(transcriptOutput), audio := recorderBlob, url := Some(newUrl));
        view.UpdateNote();
      }
    }
  }
}
