/**
 The playback half of the music player: the component's state (the playlist,
 the selected song, the play flag, the displayed time and duration) together
 with the single audio element it drives, and the event handlers that move it.
 The audio element is a record: the URL it is pointed at, its position, and
 whether it is playing.
 */
module Player {
  import opened Wrappers
  import opened Playlist

  /** The page's one audio element. */
  datatype AudioHandle = AudioHandle(src: Option<Url>, position: nat, playing: bool)

  /** Everything the component holds. `nextUrl` stands for the browser's object
      URL allocator: the next URL it will hand out. */
  datatype State = State(
    playlist: seq<Track>,
    nextUrl: Url,
    currentSong: Option<Track>,
    isPlaying: bool,
    currentTime: nat,
    duration: nat,
    audio: AudioHandle)

  /** The freshly mounted component: empty playlist, nothing selected, paused,
      both displayed times 0, and an audio element with no source. */
  const Init: State :=
    State([], 0, None, false, 0, 0, AudioHandle(None, 0, false))

  /** A track is the active one when it plays from the selected song's URL;
      identity is URL equality. */
  predicate IsActive(s: State, song: Track)
    ensures IsActive(s, song) ==> s.currentSong.Some?
    ensures s.currentSong == Some(song) ==> IsActive(s, song)
  {
    s.currentSong.Some? && song.url == s.currentSong.value.url
  }

  /** The state every reachable configuration is in:
      - playing implies a song is selected,
      - the audio element only plays when it has a source,
      - the audio element is pointed at the selected song's URL, and at
        nothing before a song is selected,
      - object URLs are distinct and all come from the allocator,
      - the selected song's URL belongs to a playlist row.
      Whether the element plays exactly when the component says so is a
      separate matter (`InSync`): the element can also be paused or resumed
      from outside the component. */
  ghost predicate Valid(s: State) {
    && (s.isPlaying ==> s.currentSong.Some?)
    && (s.audio.playing ==> s.audio.src.Some?)
    && s.audio.src == (if s.currentSong.Some? then Some(s.currentSong.value.url) else None)
    && UrlsUnique(s.playlist)
    && UrlsBelow(s.playlist, s.nextUrl)
    && (s.currentSong.Some? ==> HasUrl(s.playlist, s.currentSong.value.url))
  }

  lemma InitValid()
    ensures Valid(Init)
    ensures !Init.isPlaying && Init.currentSong.None?
  {
  }

  // ---------------------------------------------------------------------
  // Playlist events

  /** Picking files appends their audio files as fresh tracks and advances the
      URL allocator by one per track; playback is untouched. */
  function HandleFileChange(s: State, files: seq<File>): (r: State)
    ensures r.playlist == AddFiles(s.playlist, files, s.nextUrl)
    ensures r.nextUrl == s.nextUrl + |AudioIndices(files)|
    ensures r.currentSong == s.currentSong && r.isPlaying == s.isPlaying && r.audio == s.audio
    ensures r.currentTime == s.currentTime && r.duration == s.duration
  {
    s.(playlist := AddFiles(s.playlist, files, s.nextUrl),
       nextUrl := s.nextUrl + |AudioFiles(files)|)
  }

  /** Clicking the heart of row `index` flips that row's like flag only. */
  function ToggleLikeAt(s: State, index: int): (r: State)
    ensures r.playlist == ToggleLike(s.playlist, index)
    ensures r.nextUrl == s.nextUrl
    ensures r.currentSong == s.currentSong && r.isPlaying == s.isPlaying && r.audio == s.audio
    ensures r.currentTime == s.currentTime && r.duration == s.duration
  {
    s.(playlist := ToggleLike(s.playlist, index))
  }

  // ---------------------------------------------------------------------
  // Playback events

  /** Clicking a row: the active track toggles between playing and paused;
      any other track becomes the selected song, the audio element is pointed
      at its URL, rewound to 0 and started. The displayed time and duration
      are not touched, and afterwards the clicked track is the active one. */
  function PlaySong(s: State, song: Track): (r: State)
    ensures r.playlist == s.playlist && r.nextUrl == s.nextUrl
    ensures r.currentTime == s.currentTime && r.duration == s.duration
    ensures IsActive(r, song)
    ensures IsActive(s, song) ==>
              && r.currentSong == s.currentSong
              && r.isPlaying == !s.isPlaying
              && r.audio.playing == r.isPlaying
              && r.audio.src == s.audio.src
              && r.audio.position == s.audio.position
    ensures !IsActive(s, song) ==>
              && r.currentSong == Some(song)
              && r.isPlaying
              && r.audio == AudioHandle(Some(song.url), 0, true)
  {
    if IsActive(s, song) then
      if s.isPlaying then
        s.(audio := s.audio.(playing := false), isPlaying := false)
      else
        s.(audio := s.audio.(playing := true), isPlaying := true)
    else
      s.(currentSong := Some(song),
         audio := s.audio.(src := Some(song.url), position := 0, playing := true),
         isPlaying := true)
  }

  /** Dragging the slider to `value` moves the audio element there and shows
      that time; nothing else changes. */
  function Seek(s: State, value: nat): (r: State)
    ensures r.audio.position == value && r.currentTime == value
    ensures r.audio.src == s.audio.src && r.audio.playing == s.audio.playing
    ensures r.currentSong == s.currentSong && r.isPlaying == s.isPlaying
    ensures r.playlist == s.playlist && r.nextUrl == s.nextUrl && r.duration == s.duration
  {
    s.(audio := s.audio.(position := value), currentTime := value)
  }

  /** The element's `timeupdate` notification: the displayed time catches up
      with the element's position. */
  function TimeUpdate(s: State): (r: State)
    ensures r.currentTime == s.audio.position
    ensures r.audio == s.audio && r.currentSong == s.currentSong && r.isPlaying == s.isPlaying
    ensures r.playlist == s.playlist && r.nextUrl == s.nextUrl && r.duration == s.duration
  {
    s.(currentTime := s.audio.position)
  }

  /** The element's `loadedmetadata` notification: the displayed duration
      becomes the one the element read from the media. */
  function LoadedMetadata(s: State, mediaDuration: nat): (r: State)
    ensures r.duration == mediaDuration
    ensures r.audio == s.audio && r.currentSong == s.currentSong && r.isPlaying == s.isPlaying
    ensures r.playlist == s.playlist && r.nextUrl == s.nextUrl && r.currentTime == s.currentTime
  {
    s.(duration := mediaDuration)
  }

  /** The element's `ended` notification: the element has stopped at the end of
      the track and the component records that it is no longer playing; the
      song stays selected and the position stays where it stopped. */
  function Ended(s: State): (r: State)
    ensures !r.isPlaying && !r.audio.playing
    ensures r.currentSong == s.currentSong
    ensures r.audio.src == s.audio.src && r.audio.position == s.audio.position
    ensures r.playlist == s.playlist && r.nextUrl == s.nextUrl
    ensures r.currentTime == s.currentTime && r.duration == s.duration
  {
    s.(audio := s.audio.(playing := false), isPlaying := false)
  }

  /** The element starts or stops on its own, outside the component: the
      browser's media controls, media keys, a headset being unplugged. The
      component registers no `play` or `pause` listener, so only the element
      changes; an element without a source cannot start. */
  function ElementPlayStateChanged(s: State, playing: bool): (r: State)
    ensures r.audio.playing == (playing && s.audio.src.Some?)
    ensures r.audio.src == s.audio.src && r.audio.position == s.audio.position
    ensures r.currentSong == s.currentSong && r.isPlaying == s.isPlaying
    ensures r.playlist == s.playlist && r.nextUrl == s.nextUrl
    ensures r.currentTime == s.currentTime && r.duration == s.duration
  {
    s.(audio := s.audio.(playing := playing && s.audio.src.Some?))
  }

  /** The element plays exactly when the component believes it does. */
  predicate InSync(s: State) {
    s.audio.playing == s.isPlaying
  }

  // ---------------------------------------------------------------------
  // What a row shows

  datatype PlayIcon = PlayArrow | Pause
  datatype LikeIcon = Favorite | FavoriteBorder

  /** A row is highlighted when its track is the active one. */
  predicate RowSelected(s: State, song: Track)
    ensures RowSelected(s, song) ==> s.currentSong.Some?
    ensures s.currentSong == Some(song) ==> RowSelected(s, song)
  {
    IsActive(s, song)
  }

  /** The play button of a row shows a pause sign for the active track while it
      plays, and a play arrow otherwise. */
  function RowPlayIcon(s: State, song: Track): (icon: PlayIcon)
    ensures icon == Pause ==> s.isPlaying && s.currentSong.Some?
    ensures !IsActive(s, song) ==> icon == PlayArrow
    ensures IsActive(s, song) && !s.isPlaying ==> icon == PlayArrow
  {
    if IsActive(s, song) then
      (if s.isPlaying then Pause else PlayArrow)
    else
      PlayArrow
  }

  /** The heart of a row is filled when the track is liked. */
  function RowLikeIcon(song: Track): (icon: LikeIcon)
    ensures icon == Favorite <==> song.liked
  {
    if song.liked then Favorite else FavoriteBorder
  }

  // ---------------------------------------------------------------------
  // Properties

  /** Across the playlist: a row shows the pause sign exactly when it is the
      highlighted row and the player is playing, and no two rows show it, so
      every other row shows the play arrow. */
  lemma PauseIconOnlyOnPlayingRow(s: State)
    requires Valid(s)
    ensures forall j :: 0 <= j < |s.playlist| ==>
              (RowPlayIcon(s, s.playlist[j]) == Pause <==> s.isPlaying && RowSelected(s, s.playlist[j]))
    ensures forall j, k :: 0 <= j < k < |s.playlist| ==>
              !(RowPlayIcon(s, s.playlist[j]) == Pause && RowPlayIcon(s, s.playlist[k]) == Pause)
  {
    forall j, k | 0 <= j < k < |s.playlist|
      ensures !(RowPlayIcon(s, s.playlist[j]) == Pause && RowPlayIcon(s, s.playlist[k]) == Pause)
    {
      assert s.playlist[j].url != s.playlist[k].url;
    }
  }

  /** With distinct URLs, a selected song highlights exactly one row, and no
      row is highlighted before anything is selected. */
  lemma ExactlyOneRowSelected(s: State)
    requires Valid(s)
    ensures s.currentSong.None? ==> forall j :: 0 <= j < |s.playlist| ==> !RowSelected(s, s.playlist[j])
    ensures s.currentSong.Some? ==>
              exists j :: 0 <= j < |s.playlist| && RowSelected(s, s.playlist[j])
    ensures forall j, k :: 0 <= j < k < |s.playlist| ==>
              !(RowSelected(s, s.playlist[j]) && RowSelected(s, s.playlist[k]))
  {
  }

  /** Some row shows the pause sign exactly when the player is playing. */
  lemma PauseShownIffPlaying(s: State)
    requires Valid(s)
    ensures (exists j :: 0 <= j < |s.playlist| && RowPlayIcon(s, s.playlist[j]) == Pause) <==> s.isPlaying
  {
    if s.isPlaying {
      var j :| 0 <= j < |s.playlist| && s.playlist[j].url == s.currentSong.value.url;
      assert RowPlayIcon(s, s.playlist[j]) == Pause;
    }
  }

  /** Clicking the active track twice restores the play flag, the selection,
      the source and the position, without reloading; when the element was in
      step with the component, the whole state is back where it was. */
  lemma ToggleTwiceIsIdentity(s: State, song: Track)
    requires IsActive(s, song)
    ensures var r := PlaySong(PlaySong(s, song), song);
      && r.isPlaying == s.isPlaying && r.currentSong == s.currentSong
      && r.audio.src == s.audio.src && r.audio.position == s.audio.position
      && (InSync(s) ==> r == s)
  {
    var once := PlaySong(s, song);
    assert IsActive(once, song);
    assert once.audio == s.audio.(playing := !s.isPlaying);
  }

  /** Clicking a second track after a first one with a different URL leaves
      the second selected and playing, and the first no longer active. */
  lemma SwitchTracks(s: State, a: Track, b: Track)
    requires a.url != b.url
    ensures var r := PlaySong(PlaySong(s, a), b);
      && r.currentSong == Some(b) && r.isPlaying
      && !IsActive(r, a)
      && r.audio == AudioHandle(Some(b.url), 0, true)
  {
  }

  /** The slider's last drag wins, and a `timeupdate` right after a drag shows
      nothing new: the displayed time already equals the element's position. */
  lemma SeekProperties(s: State, v: nat, w: nat)
    ensures Seek(Seek(s, v), w) == Seek(s, w)
    ensures TimeUpdate(Seek(s, v)) == Seek(s, v)
  {
  }

  /** Every click on a row and every end of playback brings the element and
      the component back in step, whatever happened to the element before. */
  lemma ClickAndEndedResync(s: State, song: Track)
    ensures InSync(PlaySong(s, song))
    ensures InSync(Ended(s))
  {
  }

  /** A pause from outside the component while a track plays: the row keeps
      showing the pause sign although nothing plays, the next click on it only
      clears the play flag (the element stays silent), and it takes a second
      click to hear the track again. */
  lemma ExternalPauseTakesTwoClicks(s: State, i: nat)
    requires Valid(s)
    requires i < |s.playlist| && IsActive(s, s.playlist[i]) && s.isPlaying
    ensures var paused := ElementPlayStateChanged(s, false);
      && !paused.audio.playing && RowPlayIcon(paused, s.playlist[i]) == Pause
      && var once := PlaySong(paused, s.playlist[i]);
         && !once.audio.playing && !once.isPlaying
         && var twice := PlaySong(once, s.playlist[i]);
            twice.audio.playing && twice.isPlaying
  {
  }

  /** Liking a row changes its heart and no other row's heart. */
  lemma ToggleLikeFlipsOneHeart(s: State, index: int)
    ensures forall j :: 0 <= j < |s.playlist| ==>
              (RowLikeIcon(ToggleLikeAt(s, index).playlist[j]) == RowLikeIcon(s.playlist[j]) <==> j != index)
  {
  }

  // ---------------------------------------------------------------------
  // The invariant is kept by every handler

  lemma HandleFileChangeKeepsValid(s: State, files: seq<File>)
    requires Valid(s)
    ensures Valid(HandleFileChange(s, files))
  {
    AudioFilesAtAudioIndices(files);
    AddFilesKeepsUrlsFresh(s.playlist, files, s.nextUrl);
    if s.currentSong.Some? {
      AddFilesKeepsUrls(s.playlist, files, s.nextUrl, s.currentSong.value.url);
    }
  }

  lemma ToggleLikeKeepsValid(s: State, index: int)
    requires Valid(s)
    ensures Valid(ToggleLikeAt(s, index))
  {
    ToggleLikeKeepsUrls(s.playlist, index, s.nextUrl);
  }

  /** Clicking a row of the playlist keeps the invariant: in particular the
      player only ever plays with a song selected. */
  lemma PlaySongKeepsValid(s: State, i: nat)
    requires Valid(s)
    requires i < |s.playlist|
    ensures Valid(PlaySong(s, s.playlist[i]))
  {
    var r := PlaySong(s, s.playlist[i]);
    assert HasUrl(r.playlist, s.playlist[i].url) by {
      assert r.playlist[i].url == s.playlist[i].url;
    }
  }

  lemma SeekKeepsValid(s: State, value: nat)
    requires Valid(s)
    ensures Valid(Seek(s, value))
  {
  }

  lemma TimeUpdateKeepsValid(s: State)
    requires Valid(s)
    ensures Valid(TimeUpdate(s))
  {
  }

  lemma LoadedMetadataKeepsValid(s: State, mediaDuration: nat)
    requires Valid(s)
    ensures Valid(LoadedMetadata(s, mediaDuration))
  {
  }

  lemma EndedKeepsValid(s: State)
    requires Valid(s)
    ensures Valid(Ended(s))
  {
  }

  lemma ElementPlayStateChangedKeepsValid(s: State, playing: bool)
    requires Valid(s)
    ensures Valid(ElementPlayStateChanged(s, playing))
  {
  }
}
