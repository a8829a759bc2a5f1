/** pyMusicSync/objects/track.py (and its copy in pyMusicSync/objects.py): a
    track is computed once from its tags and its source path. */
module Tracks {
  import opened Wrappers
  import opened Text
  import opened Paths
  import opened Tags
  import opened Utils

  /** A track. `syncedFilePath` does not exist on a new track; the sync engine
      sets it once the file has been encoded or copied. */
  datatype Track = Track(
    album: string,
    title: string,
    filePath: string,
    lossless: bool,
    trackID: string,
    trackNumber: Option<int>,
    syncedFilePath: Option<string>)

  /** `int(metadata.track)`, with `None` where Python raises TypeError (no
      track tag) or ValueError (a tag `int` does not read). */
  function TrackNumber(track: Option<string>): Option<int> {
    match track
    case None => None
    case Some(s) => ParseInt(s)
  }

  /** `Track(metadata, filePath)`. */
  function NewTrack(m: Metadata, filePath: string, md5: Hash): Track {
    var ext := Ext(filePath);
    Track(Str(m.album), Str(m.title), filePath, ext == ".flac" || ext == ".wma",
          GenId(m, md5), TrackNumber(m.track), None)
  }

  /** A track is lossless exactly when its path ends in ".flac" or ".wma"
      (case-sensitive) after a last component that is not all dots. */
  lemma LosslessIff(m: Metadata, filePath: string, md5: Hash)
    ensures NewTrack(m, filePath, md5).lossless <==> EndsInExt(filePath, ".flac") || EndsInExt(filePath, ".wma")
  {
    ExtIs(filePath, ".flac");
    ExtIs(filePath, ".wma");
  }

  /** The extension test is exact and case-sensitive: after a proper stem,
      ".flac" and ".wma" are lossless and ".FLAC" is not. */
  lemma LosslessCaseSensitive(m: Metadata, stem: string, md5: Hash)
    requires NamedStem(stem)
    ensures NewTrack(m, stem + ".flac", md5).lossless
    ensures NewTrack(m, stem + ".wma", md5).lossless
    ensures !NewTrack(m, stem + ".FLAC", md5).lossless
  {
    ExtOfAppended(stem, ".flac");
    ExtOfAppended(stem, ".wma");
    ExtOfAppended(stem, ".FLAC");
  }

  /** A file named ".flac" has no extension, so it is not lossless. */
  lemma HiddenFlacNotLossless(m: Metadata, dir: string, md5: Hash)
    ensures !NewTrack(m, dir + "/.flac", md5).lossless
  {
    var p := dir + "/.flac";
    LosslessIff(m, p, md5);
    assert !NamedStem(p[..|p| - 5]) by {
      var r := p[..|p| - 5];
      assert r == dir + "/";
      assert r[|r| - 1] == '/';
    }
    assert p[|p| - 4..] != ".wma" by { assert p[|p| - 1] == 'c'; }
  }

  /** A track-number tag written by `str(i)` is read back as `i`. */
  lemma TrackNumberRoundTrip(m: Metadata, filePath: string, md5: Hash, i: int)
    requires m.track == Some(IntToString(i))
    ensures NewTrack(m, filePath, md5).trackNumber == Some(i)
  {
    ParseIntOfIntToString(i);
  }

  /** A track number is only ever read from a tag made of digits, signs,
      underscores and whitespace: "3/12" gives no number, and neither does a
      missing tag. */
  lemma TrackNumberNeedsDigits(m: Metadata, filePath: string, md5: Hash)
    ensures NewTrack(m, filePath, md5).trackNumber.Some? ==>
      m.track.Some? && forall i :: 0 <= i < |m.track.value| ==> NumeralChar(m.track.value[i])
  {
    if m.track.Some? && ParseInt(m.track.value).Some? {
      ParseIntChars(m.track.value);
    }
  }

  /** A tag such as "3/12" (track 3 of 12) is not a number to `int()`. */
  lemma TrackNumberRejectsSlash(m: Metadata, filePath: string, md5: Hash)
    requires m.track.Some? && '/' in m.track.value
    ensures NewTrack(m, filePath, md5).trackNumber == None
  {
    TrackNumberNeedsDigits(m, filePath, md5);
    var i :| 0 <= i < |m.track.value| && m.track.value[i] == '/';
    assert !NumeralChar(m.track.value[i]);
  }

  /** The identity is the fingerprint of the tags: tags with the same key
      give tracks with the same `trackID`, wherever their files are. */
  lemma TrackIdOfKey(m1: Metadata, m2: Metadata, p1: string, p2: string, md5: Hash)
    requires Key(m1) == Key(m2)
    ensures NewTrack(m1, p1, md5).trackID == NewTrack(m2, p2, md5).trackID
    ensures NewTrack(m1, p1, md5).trackID == md5(Key(m1))
  {
  }

  /** The path is stored as given, album and title as `str()` of the tags,
      and no synced path exists yet. */
  lemma NewTrackFields(m: Metadata, filePath: string, md5: Hash)
    ensures var t := NewTrack(m, filePath, md5);
      t.filePath == filePath && t.syncedFilePath == None
      && (m.album.Some? ==> t.album == m.album.value) && (m.album.None? ==> t.album == "None")
      && (m.title.Some? ==> t.title == m.title.value) && (m.title.None? ==> t.title == "None")
  {
  }
}
