/** The objects of the older objects.py: a track whose identity is the
    unhashed key, an album, and a record that is a list of IDs. Its
    `Progress` is `ProgressTracker.Progress`. */
module LegacyObjects {
  import opened Wrappers
  import opened Paths
  import opened Tags
  import opened Utils
  import opened Tracks

  /** A track of objects.py: the title is the tag itself (possibly absent)
      and there is no album, track number or synced path. */
  datatype LegacyTrack = LegacyTrack(title: Option<string>, filePath: string, lossless: bool, trackID: string)

  /** `genID(metadata)` of `Track` and of `Record`: the key string, with the
      md5 call commented out. */
  function LegacyGenId(m: Metadata): string {
    Key(m)
  }

  /** `Track(metadata, filePath)`. */
  function NewLegacyTrack(m: Metadata, filePath: string): LegacyTrack {
    var ext := Ext(filePath);
    LegacyTrack(m.title, filePath, ext == ".flac" || ext == ".wma", LegacyGenId(m))
  }

  /** The old track agrees with the new one: the same lossless test, the
      same title when the tag is present, and the new ID is the digest of the
      old one. */
  lemma LegacyTrackAgrees(m: Metadata, filePath: string, md5: Hash)
    ensures var t := NewLegacyTrack(m, filePath);
      var n := NewTrack(m, filePath, md5);
      && t.lossless == n.lossless && t.filePath == n.filePath
      && (t.title.Some? ==> n.title == t.title.value)
      && n.trackID == md5(t.trackID)
  {
  }

  /** Unhashed, the ID tells keys apart exactly: two tags give the same ID if
      and only if their keys are equal, whatever the paths. */
  lemma LegacyIdIffKey(m1: Metadata, m2: Metadata, p1: string, p2: string)
    ensures NewLegacyTrack(m1, p1).trackID == NewLegacyTrack(m2, p2).trackID <==> Key(m1) == Key(m2)
  {
  }

  /** `genID` of the root utils.py hashes the same key string that the
      objects use unhashed. */
  lemma HashedIdOfLegacyId(m: Metadata, md5: Hash)
    ensures GenId(m, md5) == md5(LegacyGenId(m))
  {
  }

  class LegacyAlbum {
    var title: Option<string>
    var tracks: seq<LegacyTrack>
    /** `""` at first; the scan assigns `__detectCoverFile`'s result, which
        may be `None`. */
    var coverFile: Option<string>

    /** `Album(title)`: the title as given, no tracks, the cover "". */
    constructor(title: Option<string>)
      ensures this.title == title && tracks == [] && coverFile == Some("")
    {
      this.title := title;
      tracks := [];
      coverFile := Some("");
    }

    /** `addTrack(track)` as the engine calls it: append at the end. */
    method AddTrack(t: LegacyTrack)
      modifies this
      ensures tracks == old(tracks) + [t]
      ensures title == old(title) && coverFile == old(coverFile)
    {
      tracks := tracks + [t];
    }
  }

  /** How many times `id` occurs in a list of IDs. */
  function Occurrences(ids: seq<string>, id: string): (n: nat)
    ensures n <= |ids|
    ensures n > 0 <==> id in ids
  {
    if ids == [] then 0
    else Occurrences(ids[..|ids| - 1], id) + (if ids[|ids| - 1] == id then 1 else 0)
  }

  class ListRecord {
    /** The list in memory. */
    var record: seq<string>
    /** The record file: its JSON list, or `None` when it does not exist. */
    var stored: Option<seq<string>>

    /** `Record(filePath)`: a missing file is first written with the
        class-level empty list (the local `record = []` binds nothing); then
        the file is read back. */
    constructor(file: Option<seq<string>>)
      ensures stored == Some(if file.Some? then file.value else [])
      ensures record == stored.value
    {
      var classLevel: seq<string> := [];
      var onDisk := file;
      if onDisk.None? {
        onDisk := Some(classLevel);
      }
      stored := onDisk;
      record := onDisk.value;
    }

    /** `add(trackID)`: append, so an ID already there occurs once more. */
    method Add(trackID: string)
      modifies this
      ensures record == old(record) + [trackID]
      ensures Occurrences(record, trackID) == Occurrences(old(record), trackID) + 1
      ensures forall id :: id != trackID ==> Occurrences(record, id) == Occurrences(old(record), id)
      ensures stored == old(stored)
    {
      ghost var before := record;
      record := record + [trackID];
      assert record[..|record| - 1] == before;
    }

    /** `query(trackID)`. */
    function Query(trackID: string): (b: bool)
      reads this
      ensures b <==> exists i :: 0 <= i < |record| && record[i] == trackID
      ensures b <==> Occurrences(record, trackID) > 0
    {
      trackID in record
    }

    /** `queryMetadata(metadata)`: is the key of these tags in the list? */
    function QueryMetadata(m: Metadata): (b: bool)
      reads this
      ensures b <==> Query(Key(m))
      ensures forall m2: Metadata :: Key(m2) == Key(m) ==> (b <==> Query(LegacyGenId(m2)))
    {
      LegacyGenId(m) in record
    }

    /** `write()`: dump the list to the record file. */
    method Write()
      modifies this
      ensures stored == Some(record) && record == old(record)
    {
      stored := Some(record);
    }
  }

  /** A track added to the list is found by its tags from then on, and only
      the added key changes the answer. */
  lemma QueryAfterAdd(record: seq<string>, m: Metadata, other: string)
    ensures LegacyGenId(m) in record + [Key(m)]
    ensures other in record + [Key(m)] <==> other in record || other == Key(m)
  {
  }
}
