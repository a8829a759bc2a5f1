/** pyMusicSync/objects/record.py (and its copy in pyMusicSync/objects.py):
    the record of synced tracks, a map from track fingerprint to the path of
    the synced file, kept in a JSON file that an autosave loop rewrites. */
module RecordStore {
  import opened Wrappers
  import opened Tags
  import opened Utils
  import opened Tracks

  /** `record[id]`: the stored path, or KeyError. */
  function Lookup(record: map<string, string>, id: string): (r: Result<string>)
    ensures r.Ok? <==> id in record
    ensures r.Ok? ==> r.value == record[id]
    ensures r.Err? ==> r.error == KeyError
  {
    if id in record then Ok(record[id]) else Err(KeyError)
  }

  class Record {
    /** The mapping in memory. */
    var record: map<string, string>
    /** The record file: its JSON contents, or `None` when it does not exist. */
    var stored: Option<map<string, string>>
    var hasUnsavedChanges: bool
    var killed: bool
    var autosaveInterval: real
    /** The fingerprint function `utils.genID` uses. */
    const md5: Hash

    /** Whatever is not marked unsaved is on disk. */
    predicate Valid()
      reads this
    {
      !hasUnsavedChanges ==> stored == Some(record)
    }

    /** `Record(filePath, interval)`: a missing file is first written with the
        (empty) class-level mapping; then the file is read back. */
    constructor(file: Option<map<string, string>>, interval: real, md5: Hash)
      ensures stored == Some(if file.Some? then file.value else map[])
      ensures record == stored.value
      ensures !hasUnsavedChanges && !killed && autosaveInterval == interval && this.md5 == md5
      ensures Valid()
    {
      this.md5 := md5;
      var initial: map<string, string> := map[];
      var onDisk := file;
      if onDisk.None? {
        onDisk := Some(initial);
      }
      stored := onDisk;
      record := onDisk.value;
      killed := false;
      hasUnsavedChanges := false;
      autosaveInterval := interval;
    }

    /** `add(track)`: insert or overwrite the track's synced path. A track
        that was never synced has no `syncedFilePath` attribute, and Python
        raises AttributeError. */
    method Add(t: Track)
      requires Valid()
      requires t.syncedFilePath.Some?
      modifies this
      ensures record == old(record)[t.trackID := t.syncedFilePath.value]
      ensures Get(t.trackID) == Ok(t.syncedFilePath.value)
      ensures forall m: Metadata :: GenId(m, md5) == t.trackID ==> Contains(m)
      ensures forall id :: id != t.trackID ==> Get(id) == old(Get(id))
      ensures hasUnsavedChanges
      ensures stored == old(stored) && killed == old(killed) && autosaveInterval == old(autosaveInterval)
      ensures Valid()
    {
      record := record[t.trackID := t.syncedFilePath.value];
      hasUnsavedChanges := true;
    }

    /** `remove(id)`: `del record[id]`, which raises KeyError on a missing key
        before the flag is touched. */
    method Remove(id: string) returns (r: Result<()>)
      requires Valid()
      modifies this
      ensures r.Ok? <==> id in old(record)
      ensures r.Ok? ==> record == old(record) - {id} && hasUnsavedChanges
      ensures r.Err? ==> r.error == KeyError && record == old(record) && hasUnsavedChanges == old(hasUnsavedChanges)
      ensures stored == old(stored) && killed == old(killed) && autosaveInterval == old(autosaveInterval)
      ensures Valid()
    {
      if id !in record {
        return Err(KeyError);
      }
      record := record - {id};
      hasUnsavedChanges := true;
      r := Ok(());
    }

    /** `metadata in record`: is the fingerprint of these tags a key? */
    function Contains(m: Metadata): (b: bool)
      reads this
      ensures b <==> Get(GenId(m, md5)).Ok?
    {
      GenId(m, md5) in record
    }

    /** `get(id)`: the stored path, or KeyError for an ID never added. */
    function Get(id: string): (r: Result<string>)
      reads this
      ensures r.Ok? <==> id in record
      ensures r.Ok? ==> r.value == record[id]
      ensures r.Err? ==> r.error == KeyError
    {
      Lookup(record, id)
    }

    /** `write()`: dump the mapping to the record file. */
    method Write()
      requires Valid()
      modifies this
      ensures stored == Some(record)
      ensures record == old(record) && hasUnsavedChanges == old(hasUnsavedChanges)
      ensures killed == old(killed) && autosaveInterval == old(autosaveInterval)
      ensures Valid()
    {
      stored := Some(record);
    }

    /** `idList()`: the keys, each once, in some order. */
    method IdList() returns (ids: seq<string>)
      ensures forall k :: k in ids <==> k in record
      ensures forall i, j :: 0 <= i < j < |ids| ==> ids[i] != ids[j]
    {
      ids := [];
      var rest := record.Keys;
      while rest != {}
        invariant forall k :: k in record <==> k in rest || k in ids
        invariant forall k :: k in ids ==> k !in rest
        invariant forall i, j :: 0 <= i < j < |ids| ==> ids[i] != ids[j]
        decreases |rest|
      {
        var k :| k in rest;
        ids := ids + [k];
        rest := rest - {k};
      }
    }

    /** One turn of the `__autosave` loop: stop once killed; otherwise write
        when there are unsaved changes and at least `autosaveInterval` seconds
        have passed since `lastTime`, and then clear the flag and restart the
        interval from `currTime`. */
    method AutosaveStep(lastTime: real, currTime: real) returns (done: bool, nextTime: real)
      requires Valid()
      modifies this
      ensures done <==> old(killed)
      ensures var due := !old(killed) && old(hasUnsavedChanges) && currTime - lastTime >= autosaveInterval;
        && (due ==> stored == Some(record) && !hasUnsavedChanges && nextTime == currTime)
        && (!due ==> stored == old(stored) && hasUnsavedChanges == old(hasUnsavedChanges) && nextTime == lastTime)
      ensures record == old(record) && killed == old(killed) && autosaveInterval == old(autosaveInterval)
      ensures Valid()
    {
      if killed {
        return true, lastTime;
      }
      done, nextTime := false, lastTime;
      if hasUnsavedChanges && currTime - lastTime >= autosaveInterval {
        Write();
        hasUnsavedChanges := false;
        nextTime := currTime;
      }
    }

    /** `killAutosave()`. */
    method KillAutosave()
      requires Valid()
      modifies this
      ensures killed
      ensures record == old(record) && stored == old(stored) && hasUnsavedChanges == old(hasUnsavedChanges)
      ensures autosaveInterval == old(autosaveInterval)
      ensures Valid()
    {
      killed := true;
    }
  }
}
