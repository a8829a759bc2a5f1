/** pyMusicSync/objects/album.py (and its copy in pyMusicSync/objects.py): an
    album is a title, the tracks found for it so far and an optional cover. */
module Albums {
  import opened Wrappers
  import opened Tracks

  class Album {
    var title: string
    var tracks: seq<Track>
    var coverFile: Option<string>

    /** `Album(title)`: no tracks and no cover yet. */
    constructor(title: string)
      ensures this.title == title && tracks == [] && coverFile == None
    {
      this.title := title;
      tracks := [];
      coverFile := None;
    }

    /** `add(track)`: append at the end, nothing else changes. */
    method Add(t: Track)
      modifies this
      ensures tracks == old(tracks) + [t]
      ensures |tracks| == |old(tracks)| + 1 && tracks[..|old(tracks)|] == old(tracks)
      ensures title == old(title) && coverFile == old(coverFile)
    {
      tracks := tracks + [t];
    }
  }
}
