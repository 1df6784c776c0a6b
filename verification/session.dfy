/**
 A page session: the sequence of user actions and audio element notifications
 the component reacts to, and the invariant that holds after any of them.
 */
module Session {
  import opened Wrappers
  import opened Playlist
  import opened Player

  /** Everything that can reach the component's handlers. */
  datatype Event =
    | PickFiles(files: seq<File>)      // the upload dialog's change event
    | ClickLike(index: int)            // the heart button of row `index`
    | ClickRow(index: int)             // the row, or its play button
    | DragSlider(value: nat)           // the slider's change event
    | TimeUpdated                      // the audio element's `timeupdate`
    | MetadataLoaded(mediaDuration: nat) // the audio element's `loadedmetadata`
    | PlaybackEnded                    // the audio element's `ended`
    | ElementPlayback(playing: bool)   // the element paused or resumed from outside the page

  /** One event. Rows only exist for playlist entries, so a click on an index
      outside the playlist is not an event the page can produce; it leaves the
      state as it is. */
  function Step(s: State, e: Event): (r: State)
    ensures r.nextUrl >= s.nextUrl
    ensures |r.playlist| >= |s.playlist|
    ensures e.ClickRow? && 0 <= e.index < |s.playlist| ==> IsActive(r, s.playlist[e.index]) && InSync(r)
    ensures !e.PickFiles? && !e.ClickLike? ==> r.playlist == s.playlist
  {
    match e
    case PickFiles(files) => HandleFileChange(s, files)
    case ClickLike(i) => ToggleLikeAt(s, i)
    case ClickRow(i) => if 0 <= i < |s.playlist| then PlaySong(s, s.playlist[i]) else s
    case DragSlider(v) => Seek(s, v)
    case TimeUpdated => TimeUpdate(s)
    case MetadataLoaded(d) => LoadedMetadata(s, d)
    case PlaybackEnded => Ended(s)
    case ElementPlayback(playing) => ElementPlayStateChanged(s, playing)
  }

  /** The events in order. */
  function Run(s: State, events: seq<Event>): (r: State)
    ensures r.nextUrl >= s.nextUrl
    ensures |r.playlist| >= |s.playlist|
    decreases |events|
  {
    if |events| == 0 then s else Run(Step(s, events[0]), events[1..])
  }

  /** Every handler keeps the invariant. */
  lemma StepKeepsValid(s: State, e: Event)
    requires Valid(s)
    ensures Valid(Step(s, e))
  {
    match e
    case PickFiles(files) => HandleFileChangeKeepsValid(s, files);
    case ClickLike(i) => ToggleLikeKeepsValid(s, i);
    case ClickRow(i) =>
      if 0 <= i < |s.playlist| {
        PlaySongKeepsValid(s, i);
      }
    case DragSlider(v) => SeekKeepsValid(s, v);
    case TimeUpdated => TimeUpdateKeepsValid(s);
    case MetadataLoaded(d) => LoadedMetadataKeepsValid(s, d);
    case PlaybackEnded => EndedKeepsValid(s);
    case ElementPlayback(playing) => ElementPlayStateChangedKeepsValid(s, playing);
  }

  lemma {:induction false} RunKeepsValid(s: State, events: seq<Event>)
    requires Valid(s)
    ensures Valid(Run(s, events))
    decreases |events|
  {
    if |events| > 0 {
      StepKeepsValid(s, events[0]);
      RunKeepsValid(Step(s, events[0]), events[1..]);
    }
  }

  /** The events come from the page alone: nothing outside it pauses or
      resumes the audio element. */
  predicate PageOnly(events: seq<Event>) {
    forall k :: 0 <= k < |events| ==> !events[k].ElementPlayback?
  }

  /** Every event the page itself produces keeps the element in step with the
      component. */
  lemma StepKeepsInSync(s: State, e: Event)
    requires InSync(s) && !e.ElementPlayback?
    ensures InSync(Step(s, e))
  {
    if e.ClickRow? && 0 <= e.index < |s.playlist| {
      ClickAndEndedResync(s, s.playlist[e.index]);
    }
  }

  lemma {:induction false} RunKeepsInSync(s: State, events: seq<Event>)
    requires InSync(s) && PageOnly(events)
    ensures InSync(Run(s, events))
    decreases |events|
  {
    if |events| > 0 {
      StepKeepsInSync(s, events[0]);
      assert PageOnly(events[1..]) by {
        forall k | 0 <= k < |events[1..]|
          ensures !events[1..][k].ElementPlayback?
        {
          assert events[1..][k] == events[k + 1];
        }
      }
      RunKeepsInSync(Step(s, events[0]), events[1..]);
    }
  }

  /** From a freshly mounted component, whatever happens: the player plays
      only with a song selected, the element only plays with a source, and no
      two rows share an object URL. When nothing outside the page pauses or
      resumes the element, it also plays exactly when the component says so. */
  lemma ReachableStatesAreConsistent(events: seq<Event>)
    ensures var r := Run(Init, events);
      && (r.isPlaying ==> r.currentSong.Some?)
      && (r.audio.playing ==> r.audio.src.Some?)
      && UrlsUnique(r.playlist)
      && (PageOnly(events) ==> InSync(r))
  {
    InitValid();
    RunKeepsValid(Init, events);
    if PageOnly(events) {
      RunKeepsInSync(Init, events);
    }
  }

  /** Selecting row a and then a different row b: b is selected and playing,
      rewound to 0, and a is no longer highlighted. */
  lemma SelectThenSelectOther(s: State, a: nat, b: nat)
    requires Valid(s)
    requires a < |s.playlist| && b < |s.playlist| && a != b
    ensures var r := Run(s, [ClickRow(a), ClickRow(b)]);
      && r.currentSong == Some(s.playlist[b])
      && r.isPlaying
      && r.audio.src == Some(s.playlist[b].url) && r.audio.position == 0
      && !RowSelected(r, s.playlist[a])
  {
    var s1 := Step(s, ClickRow(a));
    assert Run(s, [ClickRow(a), ClickRow(b)]) == Run(s1, [ClickRow(b)]);
    assert Run(s1, [ClickRow(b)]) == Step(s1, ClickRow(b)) by {
      assert [ClickRow(b)][1..] == [];
    }
    if a < b {
      assert s.playlist[a].url != s.playlist[b].url;
    } else {
      assert s.playlist[b].url != s.playlist[a].url;
    }
    SwitchTracks(s, s.playlist[a], s.playlist[b]);
  }

  /** Clicking the active, playing row pauses it without deselecting it, and
      clicking it once more resumes it; when the element was in step with the
      component, the second click restores the state exactly. */
  lemma PauseThenResume(s: State, i: nat)
    requires Valid(s)
    requires i < |s.playlist| && IsActive(s, s.playlist[i]) && s.isPlaying
    ensures var paused := Step(s, ClickRow(i));
      && !paused.isPlaying && !paused.audio.playing
      && paused.currentSong == s.currentSong
      && Step(paused, ClickRow(i)).isPlaying && Step(paused, ClickRow(i)).audio.playing
      && (InSync(s) ==> Step(paused, ClickRow(i)) == s)
  {
    ToggleTwiceIsIdentity(s, s.playlist[i]);
  }

  /** When the track finishes, the player stops but the track stays selected. */
  lemma EndedKeepsSelection(s: State)
    requires Valid(s) && s.currentSong.Some?
    ensures var r := Step(s, PlaybackEnded);
      && !r.isPlaying && r.currentSong == s.currentSong && Valid(r)
  {
    EndedKeepsValid(s);
  }
}
