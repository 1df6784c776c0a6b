/** The optional value the component keeps in `currentSong` (null until a track is picked). */
module Wrappers {

  datatype Option<+T> = None | Some(value: T)

}
