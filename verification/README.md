# Playlist player — a verified model of its state core

The repository is a single React component, `MusicPlayer`, that lets a user
upload local audio files, lists them, plays, pauses and seeks the selected one
through one `<audio>` element, and marks tracks as liked. This project models the
component's state and its event handlers as pure transitions in Dafny:

- `wrappers.dfy` — `Option`, for the component's nullable `currentSong`.
- `playlist.dfy` (module `Playlist`) — files, tracks, the audio-type filter,
  appending picked files as tracks (`handleFileChange`), flipping the like flag
  of one row (`toggleLike`), and the uniqueness of object URLs.
- `player.dfy` (module `Player`) — the component state (playlist, URL allocator,
  `currentSong`, `isPlaying`, displayed `currentTime` and `duration`) with the
  audio element as a record (source URL, position, playing); the handlers
  `playSong`, `handleSliderChange`, `timeupdate`, `loadedmetadata` and `ended`;
  the element being paused or resumed from outside the page; what each row shows
  (highlight, play/pause icon, heart icon); the invariant `Valid` that every
  handler keeps; and `InSync`, which says the element plays exactly when the
  component believes it does.
- `session.dfy` (module `Session`) — the events that reach the handlers, one step,
  a run of events from the freshly mounted component, and the interaction
  scenarios (switching tracks, pause then resume, end of playback).

Modelling choices:

- `URL.createObjectURL` hands out fresh, opaque identifiers. It is modelled as a
  counter `nextUrl` in the state: the k-th audio file of one pick gets
  `nextUrl + k`. Since the component decides track identity by URL equality
  (`song.url === currentSong.url`), the assumption that object URLs are unique
  is what the model relies on. With the counter it is not assumed but proved
  as part of `Valid`.
- The audio element's `ended` notification also leaves the element stopped. The
  browser sets it paused at the end of playback, so the record's `playing` field
  is cleared alongside `isPlaying`. The position is left where playback stopped.
- On a track switch only the element's position is reset to 0. The displayed
  `currentTime` and `duration` keep their old values until the next `timeupdate`
  or `loadedmetadata`, as in the source, and the model keeps the two apart.
- The element can be paused or resumed by something other than the component:
  the browser's media controls, media keys, or a headset being unplugged. The
  component registers listeners only for `timeupdate`, `loadedmetadata` and
  `ended` (lines 72-74), and has none for `play` or `pause`. After such a pause
  `isPlaying` stays true and the row keeps its pause icon. The next click calls
  `pause()` on an element that is already silent, so it takes two clicks to hear
  the track again (`Player.ExternalPauseTakesTwoClicks`). The model includes this
  event. So `InSync` is proved only for runs that no outside event touches; any
  click on a row or end of playback restores it.
- The file input passes `accept` and `multiple` through `inputProps` (line 101),
  which is a prop of the Material UI input component rather than of a plain
  `<input>`. So a plain `<input type="file">` is rendered with neither
  attribute. The dialog accepts a file of any type, but only one file per pick.
  `PickFiles` covers a larger case: any sequence of files of any type. The
  multi-file, in-order statements of `Playlist.AddFiles` and
  `Playlist.AudioFilesAtAudioIndices` therefore cover inputs the dialog as written
  cannot deliver. They hold for every input, one file included. The type filter
  at line 21 still applies.
- Times are natural numbers. A seek value is taken as given.
- A like click on an index outside the playlist leaves it unchanged, as the
  source's `map` over the rows does. It is not treated as an error.

## Model

| member | source | states |
|---|---|---|
| Playlist.IsAudio | src/MusicPlayer/MusicPlayer.jsx:21 | a file is accepted exactly when its MIME type has at least six characters and the first six are "audio/" (`startsWith('audio/')`) |
| Playlist.AudioFiles | src/MusicPlayer/MusicPlayer.jsx:20-21 | the filter keeps only audio files and never grows the list, and an input made only of audio files passes through unchanged (which files are kept, in which order, is stated by `Playlist.AudioFilesAtAudioIndices`) |
| Playlist.NewTracks | src/MusicPlayer/MusicPlayer.jsx:22-27 | the `.map` gives one track per kept file, with that file and its name and not liked, and the URLs are distinct and drawn from the fresh range starting at the allocator |
| Playlist.AudioIndices | src/MusicPlayer/MusicPlayer.jsx:19-21 | an ascending list of positions that holds every position whose file type starts with "audio/" and no other position |
| Playlist.AudioFilesAtAudioIndices | src/MusicPlayer/MusicPlayer.jsx:20-21 | the type filter keeps exactly the audio files, in their original relative order: its k-th result is the file at the k-th audio position |
| Playlist.AddFiles | src/MusicPlayer/MusicPlayer.jsx:18-29 | existing tracks keep their positions; one track per audio file is appended in input order, holding that file and its name, not liked, with the next fresh URL; the length grows by the number of audio files |
| Playlist.ToggleLike | src/MusicPlayer/MusicPlayer.jsx:31-37 | an in-range index flips only that row's liked flag and keeps its file, URL and name; every other row is unchanged and the length is kept; an out-of-range index changes nothing |
| Playlist.ToggleLikeInvolution | src/MusicPlayer/MusicPlayer.jsx:33-35 | toggling the same index twice restores the playlist |
| Playlist.AddFilesKeepsUrlsFresh | src/MusicPlayer/MusicPlayer.jsx:22-28 | given distinct URLs below the allocator, the URLs stay distinct after an upload and all lie below the advanced allocator |
| Playlist.AddFilesKeepsUrls | src/MusicPlayer/MusicPlayer.jsx:28 | a URL present in the playlist is still present after an upload |
| Playlist.ToggleLikeKeepsUrls | src/MusicPlayer/MusicPlayer.jsx:33-35 | liking a row keeps the URLs distinct, allocated and present |
| Player.InitValid | src/MusicPlayer/MusicPlayer.jsx:11-16 | the mounted component (empty list, no song, not playing) satisfies the invariant |
| Player.IsActive | src/MusicPlayer/MusicPlayer.jsx:40 | a track can only be active when a song is selected, and the selected song is always active itself; identity is URL equality |
| Player.HandleFileChange | src/MusicPlayer/MusicPlayer.jsx:18-29 | the new playlist is exactly the old one with the audio files appended as fresh unliked tracks (as `Playlist.AddFiles` states); the upload advances the URL allocator by as many, and leaves song, play flag, audio element and displayed times alone |
| Player.ToggleLikeAt | src/MusicPlayer/MusicPlayer.jsx:31-37 | the new playlist is the one `Playlist.ToggleLike` gives, which flips only the clicked row's liked flag and keeps every file, name and URL; the URL allocator, selection, playback and displayed times are untouched |
| Player.PlaySong | src/MusicPlayer/MusicPlayer.jsx:39-55 | re-selecting the active track (same URL) flips the play flag and matches the element to it, keeping song, source and position; another track becomes the song, is loaded at position 0 and plays; either way the clicked track is active afterwards and displayed times are not reset |
| Player.Seek | src/MusicPlayer/MusicPlayer.jsx:65-68 | the element position and the displayed time both become the slider value; song, play flag and source are unchanged |
| Player.TimeUpdate | src/MusicPlayer/MusicPlayer.jsx:57-59 | the displayed time becomes the element's position and nothing else changes |
| Player.LoadedMetadata | src/MusicPlayer/MusicPlayer.jsx:61-63 | the displayed duration becomes the media's duration and nothing else changes |
| Player.Ended | src/MusicPlayer/MusicPlayer.jsx:74 | end of playback clears the play flag and keeps the selected song, source and position |
| Player.RowSelected | src/MusicPlayer/MusicPlayer.jsx:118 | a row can be highlighted only while a song is selected, and the selected song's row always is |
| Player.RowPlayIcon | src/MusicPlayer/MusicPlayer.jsx:133-137 | the pause icon appears only while playing with a song selected; a row that is not active, or that is active while paused, shows the play arrow |
| Player.RowLikeIcon | src/MusicPlayer/MusicPlayer.jsx:146 | the filled heart is shown exactly when the track is liked |
| Player.ElementPlayStateChanged | src/MusicPlayer/MusicPlayer.jsx:70-76 | a pause or resume from outside the page changes only the element (which cannot start without a source), never `isPlaying`, because no `play`/`pause` listener is registered |
| Player.PauseIconOnlyOnPlayingRow | src/MusicPlayer/MusicPlayer.jsx:133-137 | across the playlist, a row shows the pause icon exactly when it is the highlighted row and the player is playing, and never two rows at once, so every other row shows the play icon |
| Player.ExactlyOneRowSelected | src/MusicPlayer/MusicPlayer.jsx:118 | with no song no row is highlighted; with a song some row is highlighted, and never two rows at once |
| Player.PauseShownIffPlaying | src/MusicPlayer/MusicPlayer.jsx:133-137 | some row shows the pause icon exactly when the player is playing |
| Player.ToggleTwiceIsIdentity | src/MusicPlayer/MusicPlayer.jsx:40-47 | clicking the active track twice restores the play flag, song, source and position; with the element in step, the whole state is back where it was |
| Player.ClickAndEndedResync | src/MusicPlayer/MusicPlayer.jsx:39-55 | after any click on a row, and after end of playback, the element plays exactly when the component believes it does |
| Player.ExternalPauseTakesTwoClicks | src/MusicPlayer/MusicPlayer.jsx:40-47 | after a pause from outside the page, the active row still shows the pause icon while nothing plays; the first click leaves the element silent and only the second click resumes it |
| Player.SwitchTracks | src/MusicPlayer/MusicPlayer.jsx:48-54 | selecting a then b with a different URL leaves b selected, loaded at 0 and playing, and a not active |
| Player.SeekProperties | src/MusicPlayer/MusicPlayer.jsx:57-68 | the last slider drag wins, and a `timeupdate` right after a drag changes nothing |
| Player.ToggleLikeFlipsOneHeart | src/MusicPlayer/MusicPlayer.jsx:143-146 | after liking row i, a row's heart icon changes exactly when it is row i |
| Player.HandleFileChangeKeepsValid | src/MusicPlayer/MusicPlayer.jsx:18-29 | an upload keeps the invariant |
| Player.ToggleLikeKeepsValid | src/MusicPlayer/MusicPlayer.jsx:31-37 | liking a row keeps the invariant |
| Player.PlaySongKeepsValid | src/MusicPlayer/MusicPlayer.jsx:39-55 | clicking a playlist row keeps the invariant, in particular playing implies a song is selected |
| Player.SeekKeepsValid | src/MusicPlayer/MusicPlayer.jsx:65-68 | seeking keeps the invariant |
| Player.TimeUpdateKeepsValid | src/MusicPlayer/MusicPlayer.jsx:57-59 | `timeupdate` keeps the invariant |
| Player.LoadedMetadataKeepsValid | src/MusicPlayer/MusicPlayer.jsx:61-63 | `loadedmetadata` keeps the invariant |
| Player.EndedKeepsValid | src/MusicPlayer/MusicPlayer.jsx:74 | `ended` keeps the invariant |
| Player.ElementPlayStateChangedKeepsValid | src/MusicPlayer/MusicPlayer.jsx:70-76 | a pause or resume from outside the page keeps the invariant |
| Session.Step | src/MusicPlayer/MusicPlayer.jsx:114-143 | an event never shrinks the playlist or rewinds the URL allocator, only uploads and likes touch the playlist, and a click on a row makes that row's track active and brings the element back in step |
| Session.Run | src/MusicPlayer/MusicPlayer.jsx:10-76 | a run of events never shrinks the playlist or rewinds the URL allocator |
| Session.StepKeepsValid | src/MusicPlayer/MusicPlayer.jsx:18-76 | every handler keeps the invariant |
| Session.RunKeepsValid | src/MusicPlayer/MusicPlayer.jsx:18-76 | any run of events from a valid state ends in a valid state |
| Session.StepKeepsInSync | src/MusicPlayer/MusicPlayer.jsx:18-76 | every event the page itself produces keeps the element in step with the component |
| Session.RunKeepsInSync | src/MusicPlayer/MusicPlayer.jsx:18-76 | a run with no pause or resume from outside the page keeps the element in step |
| Session.ReachableStatesAreConsistent | src/MusicPlayer/MusicPlayer.jsx:12-13 | from the mounted component, after any events, playing implies a song is selected, the element plays only with a source, and URLs are distinct; when nothing outside the page paused or resumed the element, it plays exactly when the component says so |
| Session.SelectThenSelectOther | src/MusicPlayer/MusicPlayer.jsx:48-54 | clicking row a then a different row b leaves b selected, loaded at 0 and playing, and row a not highlighted |
| Session.PauseThenResume | src/MusicPlayer/MusicPlayer.jsx:40-47 | clicking the active, playing row pauses it with the selection kept; clicking it again resumes it, and with the element in step it restores the state exactly |
| Session.EndedKeepsSelection | src/MusicPlayer/MusicPlayer.jsx:74 | when the track ends, playback stops while the track stays selected |

## Left out

- Rendering (layout, styling, the background image, the upload button markup) is presentation. Only what a row shows is modelled: highlight, play/pause icon and heart icon.
- The audio element itself is reduced to a record. Decoding, unsupported formats, the rejected promise `play()` may return, and time advancing during playback are not modelled. The element's own rewind to 0 when `play()` is called after it ended is browser behaviour and is not modelled either.
- Floating-point times, the element's clamping of seek values to the media length, and the whole-second `Math.floor` readout are not modelled; times are natural numbers.
- `URL.createObjectURL` is modelled as a counter, as described above. Object URLs are never released in the source, and nothing is modelled for that.
- Registering the listeners in `useEffect` and React's batched, asynchronous `setState` are framework plumbing. Each handler is one atomic transition.
- Session.Step: a click on a row index outside the playlist is not something the page can produce, because rows are rendered from the playlist. The model treats it as no event.
- Session.Step: a slider drag is accepted in any state, although the slider is only rendered while a song is selected (line 154). Seeking keeps the invariant either way.
