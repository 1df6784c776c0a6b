/**
 The playlist half of the music player: the list of uploaded tracks, how
 picked files become tracks, and how the "like" flag of one row is flipped.
 */
module Playlist {

  /** An object URL handed out by the browser for a picked file. It is opaque:
      the player only ever compares two of them for equality. */
  type Url = nat

  /** A file from the upload dialog: its name, its MIME type, and an opaque
      identity standing for the file's bytes. */
  datatype File = File(name: string, mimeType: string, blob: nat)

  /** One playlist row: the picked file, the object URL that plays it, the name
      shown in the list, and whether the user marked it as liked. */
  datatype Track = Track(file: File, url: Url, name: string, liked: bool)

  const AudioPrefix: string := "audio/"

  /** Only files whose MIME type starts with "audio/" are accepted. */
  predicate IsAudio(f: File)
    ensures IsAudio(f) <==> |f.mimeType| >= 6 && f.mimeType[..6] == "audio/"
  {
    AudioPrefix <= f.mimeType
  }

  /** The positions of the audio files among `files`, in ascending order: an
      independent description of what filtering by type must keep. */
  function AudioIndices(files: seq<File>): (ix: seq<nat>)
    ensures forall k :: 0 <= k < |ix| ==> ix[k] < |files| && IsAudio(files[ix[k]])
    ensures forall k, l :: 0 <= k < l < |ix| ==> ix[k] < ix[l]
    ensures forall j :: 0 <= j < |files| && IsAudio(files[j]) ==> j in ix
    ensures |ix| <= |files|
  {
    if |files| == 0 then []
    else
      var n := |files| - 1;
      var front := files[..n];
      assert forall j :: 0 <= j < n ==> front[j] == files[j];
      AudioIndices(front) + (if IsAudio(files[n]) then [n] else [])
  }

  /** The audio files among `files`, in their original order: it keeps only
      audio files, never more files than it was given, and every file of an
      all-audio input. */
  function AudioFiles(files: seq<File>): (kept: seq<File>)
    ensures |kept| <= |files|
    ensures forall k :: 0 <= k < |kept| ==> IsAudio(kept[k])
    ensures (forall j :: 0 <= j < |files| ==> IsAudio(files[j])) ==> kept == files
  {
    if |files| == 0 then []
    else
      var n := |files| - 1;
      AudioFiles(files[..n]) + (if IsAudio(files[n]) then [files[n]] else [])
  }

  /** Filtering keeps exactly the audio files, in order: the k-th kept file is
      the file at the k-th audio position. */
  lemma {:induction false} AudioFilesAtAudioIndices(files: seq<File>)
    ensures |AudioFiles(files)| == |AudioIndices(files)|
    ensures forall k :: 0 <= k < |AudioFiles(files)| ==>
              AudioFiles(files)[k] == files[AudioIndices(files)[k]]
  {
    if |files| > 0 {
      var n := |files| - 1;
      var front := files[..n];
      AudioFilesAtAudioIndices(front);
      forall k | 0 <= k < |AudioFiles(files)|
        ensures AudioFiles(files)[k] == files[AudioIndices(files)[k]]
      {
        if k < |AudioFiles(front)| {
          assert AudioFiles(files)[k] == AudioFiles(front)[k];
          assert AudioIndices(files)[k] == AudioIndices(front)[k];
          assert front[AudioIndices(front)[k]] == files[AudioIndices(front)[k]];
        }
      }
    }
  }

  /** The tracks made from already-filtered files: each file gets the next
      fresh object URL, its own name, and is not liked. */
  function NewTracks(audio: seq<File>, next: Url): (ts: seq<Track>)
    ensures |ts| == |audio|
    ensures forall k :: 0 <= k < |ts| ==>
              ts[k].file == audio[k] && ts[k].name == audio[k].name && !ts[k].liked
    ensures UrlsUnique(ts)
    ensures forall k :: 0 <= k < |ts| ==> next <= ts[k].url < next + |audio|
  {
    seq(|audio|, k requires 0 <= k < |audio| => Track(audio[k], next + k, audio[k].name, false))
  }

  /** Adding picked files to the playlist: the audio files among them are
      appended, in their original order, as fresh unliked tracks whose URLs
      are allocated from `next` on; every existing track stays where it was. */
  function AddFiles(playlist: seq<Track>, files: seq<File>, next: Url): (r: seq<Track>)
    ensures |r| == |playlist| + |AudioIndices(files)|
    ensures r[..|playlist|] == playlist
    ensures forall k :: 0 <= k < |AudioIndices(files)| ==>
              var t := r[|playlist| + k];
              var f := files[AudioIndices(files)[k]];
              t.file == f && t.name == f.name && !t.liked && t.url == next + k
  {
    AudioFilesAtAudioIndices(files);
    playlist + NewTracks(AudioFiles(files), next)
  }

  /** Flips the like flag of the track at `index`; any other index, including
      one outside the playlist, leaves the playlist as it is. */
  function ToggleLike(playlist: seq<Track>, index: int): (r: seq<Track>)
    ensures |r| == |playlist|
    ensures forall j :: 0 <= j < |playlist| && j != index ==> r[j] == playlist[j]
    ensures 0 <= index < |playlist| ==>
              && r[index].liked == !playlist[index].liked
              && r[index].file == playlist[index].file
              && r[index].url == playlist[index].url
              && r[index].name == playlist[index].name
    ensures !(0 <= index < |playlist|) ==> r == playlist
  {
    seq(|playlist|, j requires 0 <= j < |playlist| =>
      if j == index then playlist[j].(liked := !playlist[j].liked) else playlist[j])
  }

  /** Liking a row twice gives back the playlist it started from. */
  lemma ToggleLikeInvolution(playlist: seq<Track>, index: int)
    ensures ToggleLike(ToggleLike(playlist, index), index) == playlist
  {
    var once := ToggleLike(playlist, index);
    var twice := ToggleLike(once, index);
    assert forall j :: 0 <= j < |playlist| ==> twice[j] == playlist[j];
  }

  /** No two rows share an object URL. */
  ghost predicate UrlsUnique(playlist: seq<Track>) {
    forall j, k :: 0 <= j < k < |playlist| ==> playlist[j].url != playlist[k].url
  }

  /** Every URL in the playlist was allocated before `next`. */
  ghost predicate UrlsBelow(playlist: seq<Track>, next: Url) {
    forall j :: 0 <= j < |playlist| ==> playlist[j].url < next
  }

  /** Some row plays from object URL `url`. */
  ghost predicate HasUrl(playlist: seq<Track>, url: Url) {
    exists j :: 0 <= j < |playlist| && playlist[j].url == url
  }

  /** Fresh URLs keep URLs distinct: after adding files with the allocator at
      `next`, no two rows share a URL and the allocator has moved past all of
      them, having consumed one URL per audio file. */
  lemma AddFilesKeepsUrlsFresh(playlist: seq<Track>, files: seq<File>, next: Url)
    requires UrlsUnique(playlist) && UrlsBelow(playlist, next)
    ensures UrlsUnique(AddFiles(playlist, files, next))
    ensures UrlsBelow(AddFiles(playlist, files, next), next + |AudioIndices(files)|)
  {
    var r := AddFiles(playlist, files, next);
    var n := |playlist|;
    forall j | 0 <= j < |r|
      ensures r[j].url < next + |AudioIndices(files)|
      ensures j >= n ==> r[j].url == next + (j - n)
      ensures j < n ==> r[j] == playlist[j]
    {
      if j < n {
        assert r[..n][j] == r[j];
      } else {
        assert r[n + (j - n)] == r[j];
      }
    }
  }

  /** A row that was present is still present, with the same URL, after files
      are added. */
  lemma AddFilesKeepsUrls(playlist: seq<Track>, files: seq<File>, next: Url, url: Url)
    requires HasUrl(playlist, url)
    ensures HasUrl(AddFiles(playlist, files, next), url)
  {
    var r := AddFiles(playlist, files, next);
    var j :| 0 <= j < |playlist| && playlist[j].url == url;
    assert r[..|playlist|][j] == r[j];
  }

  /** Liking a row never changes which URLs the rows hold, so it keeps them
      distinct and allocated, and keeps every URL that was present. */
  lemma ToggleLikeKeepsUrls(playlist: seq<Track>, index: int, next: Url)
    ensures UrlsUnique(playlist) ==> UrlsUnique(ToggleLike(playlist, index))
    ensures UrlsBelow(playlist, next) ==> UrlsBelow(ToggleLike(playlist, index), next)
    ensures forall url :: HasUrl(playlist, url) ==> HasUrl(ToggleLike(playlist, index), url)
  {
    var r := ToggleLike(playlist, index);
    assert forall j :: 0 <= j < |r| ==> r[j].url == playlist[j].url;
    forall url | HasUrl(playlist, url)
      ensures HasUrl(r, url)
    {
      var j :| 0 <= j < |playlist| && playlist[j].url == url;
      assert r[j].url == url;
    }
  }
}
