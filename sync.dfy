/** The sync engine of pyMusicSync/sync.py. The class-level `albums`,
    `trackIDList` and `progress` are fields of one engine object. The file
    system is passed in and returned explicitly; the tag reader and the
    filter's verdict are inputs. */
module Sync {
  import opened Wrappers
  import opened Paths
  import opened Tags
  import opened Utils
  import opened Tracks
  import opened Albums
  import opened ProgressTracker
  import opened RecordStore
  import opened FileSystem
  import opened Encoder
  import opened SyncSpec

  class MusicSync {
    var albums: map<string, Album>
    var trackIDList: set<string>
    const progress: Progress
    const record: Record
    const dryRun: bool
    const encoderSetting: EncoderSetting
    /** The transliteration `unidecode` applies inside `pathSanitize`. */
    const table: Transliteration
    /** The configuration's filter verdict on a track's tags. */
    const check: Metadata -> bool

    /** Each album object is filed once, under its own title, and the record
        is consistent. */
    predicate Valid()
      reads this, albums.Values, record
    {
      && (forall k1, k2 :: k1 in albums && k2 in albums && k1 != k2 ==> albums[k1] != albums[k2])
      && (forall k :: k in albums ==> albums[k].title == k)
      && record.Valid()
    }

    /** The albums as values. */
    function View(): map<string, AlbumValue>
      reads this, albums.Values
    {
      map k | k in albums :: AlbumValue(albums[k].tracks, albums[k].coverFile)
    }

    /** What a scan of `fs` with the tag reader `tags` reads. */
    function ScanEnv(tags: string -> Option<Metadata>, fs: Fs): Env
      reads this, record
    {
      Env(tags, check, record.record.Keys, record.md5, fs)
    }

    /** `musicSync(config)`: the record is loaded from its file (the
        autosave thread is not modelled); no albums, no IDs, no progress. */
    constructor(recordFile: Option<map<string, string>>, autosaveInterval: real, md5: Hash,
                dryRun: bool, encoderSetting: EncoderSetting, table: Transliteration, check: Metadata -> bool)
      ensures Valid()
      ensures albums == map[] && trackIDList == {}
      ensures progress.finished == 0 && progress.total == 0
      ensures record.record == (if recordFile.Some? then recordFile.value else map[]) && record.md5 == md5
      ensures this.dryRun == dryRun && this.encoderSetting == encoderSetting && this.table == table && this.check == check
    {
      var r := new Record(recordFile, autosaveInterval, md5);
      var p := new Progress();
      record, progress := r, p;
      albums, trackIDList := map[], {};
      this.dryRun, this.encoderSetting, this.table, this.check := dryRun, encoderSetting, table, check;
    }

    /** `albums[name].add(t)`, creating the album first if it is new. */
    method AddToAlbum(name: string, t: Track)
      requires Valid()
      modifies this, albums.Values
      ensures Valid()
      ensures var a := if name in old(View()) then old(View())[name] else AlbumValue([], None);
        View() == old(View())[name := a.(tracks := a.tracks + [t])]
      ensures forall a :: a in albums.Values ==> a in old(albums.Values) || fresh(a)
      ensures trackIDList == old(trackIDList)
    {
      if name !in albums {
        CreateAlbum(name);
      }
      AppendTrack(name, t);
    }

    /** `albums[name] = Album(name)` for a new name. */
    method CreateAlbum(name: string)
      requires Valid() && name !in albums
      modifies this
      ensures Valid() && name in albums
      ensures View() == old(View())[name := AlbumValue([], None)]
      ensures forall a :: a in albums.Values ==> a in old(albums.Values) || fresh(a)
      ensures trackIDList == old(trackIDList)
    {
      ghost var v := View();
      var a := new Album(name);
      albums := albums[name := a];
      assert View().Keys == v.Keys + {name};
      forall k | k in View()
        ensures View()[k] == v[name := AlbumValue([], None)][k]
      {
        if k != name {
          assert albums[k] == old(albums)[k];
        }
      }
    }

    /** `albums[name].add(t)` for a known name. */
    method AppendTrack(name: string, t: Track)
      requires Valid() && name in albums
      modifies albums[name]
      ensures Valid()
      ensures View() == old(View())[name := old(View())[name].(tracks := old(View())[name].tracks + [t])]
    {
      albums[name].Add(t);
    }

    /** `trackIDList.add(id)`. */
    method AddId(id: string)
      requires Valid()
      modifies this
      ensures Valid()
      ensures trackIDList == old(trackIDList) + {id}
      ensures albums == old(albums) && View() == old(View())
    {
      trackIDList := trackIDList + {id};
    }

    /** `albums[name].coverFile = cover`. */
    method SetCover(name: string, cover: Option<string>)
      requires Valid() && name in albums
      modifies albums[name]
      ensures Valid()
      ensures View() == old(View())[name := old(View())[name].(coverFile := cover)]
    {
      albums[name].coverFile := cover;
    }

    /** The path to the album of the last accepted track, as the scan state
        says it: `albumName` when `hasMusic` holds. */
    static function LastAlbum(hasMusic: bool, albumName: string): Option<string> {
      if hasMusic then Some(albumName) else None
    }

    /** One turn of `folderTraversal`'s inner loop, for the file `f` in `root`. */
    method ScanOne(root: string, f: string, tags: string -> Option<Metadata>, fs: Fs,
                   trackCount: nat, hasMusic: bool, albumName: string)
      returns (trackCount': nat, hasMusic': bool, albumName': string)
      requires Valid()
      modifies this, albums.Values
      ensures Valid()
      ensures forall a :: a in albums.Values ==> a in old(albums.Values) || fresh(a)
      ensures var r := ScanFile(ScanEnv(tags, fs), root, f, ScanState(old(View()), old(trackIDList), trackCount, LastAlbum(hasMusic, albumName)));
        View() == r.albums && trackIDList == r.ids && trackCount' == r.count && LastAlbum(hasMusic', albumName') == r.last
    {
      ghost var env := ScanEnv(tags, fs);
      ghost var st := ScanState(View(), trackIDList, trackCount, LastAlbum(hasMusic, albumName));
      trackCount', hasMusic', albumName' := trackCount, hasMusic, albumName;
      var fullPath := Join(root, f);
      var metadata := tags(fullPath);
      if metadata.None? {
        assert ScanFile(env, root, f, st) == st;
      } else {
        var m := metadata.value;
        assert env.tags(fullPath) == Some(m);
        AddId(GenId(m, record.md5));
        if check(m) && !record.Contains(m) {
          albumName' := Str(m.album);
          var newTrack := NewTrack(m, fullPath, record.md5);
          ghost var a := if albumName' in st.albums then st.albums[albumName'] else AlbumValue([], None);
          assert ScanFile(env, root, f, st) == ScanState(st.albums[albumName' := a.(tracks := a.tracks + [newTrack])],
                                                         st.ids + {GenId(m, env.md5)}, trackCount + 1, Some(albumName')) by {
            assert Accepted(env, m);
          }
          AddToAlbum(albumName', newTrack);
          hasMusic' := true;
          trackCount' := trackCount + 1;
        } else {
          assert ScanFile(env, root, f, st) == st.(ids := st.ids + {GenId(m, env.md5)});
        }
      }
    }

    /** The inner loop of `folderTraversal` over the files of one directory,
        from `hasMusic = False` and the initial `albumName`. */
    method ScanFilesOf(root: string, files: seq<string>, tags: string -> Option<Metadata>, fs: Fs, ghost env: Env, trackCount: nat)
      returns (trackCount': nat, hasMusic: bool, albumName: string)
      requires Valid() && env == ScanEnv(tags, fs)
      modifies this, albums.Values
      ensures Valid() && env == ScanEnv(tags, fs)
      ensures forall a :: a in albums.Values ==> a in old(albums.Values) || fresh(a)
      ensures var r := ScanFiles(env, root, files, ScanState(old(View()), old(trackIDList), trackCount, None));
        View() == r.albums && trackIDList == r.ids && trackCount' == r.count && LastAlbum(hasMusic, albumName) == r.last
    {
      ghost var sd := ScanState(View(), trackIDList, trackCount, None);
      hasMusic := false;
      albumName := "";
      trackCount' := trackCount;
      var j := 0;
      while j < |files|
        invariant 0 <= j <= |files|
        invariant Valid() && env == ScanEnv(tags, fs)
        invariant forall a :: a in albums.Values ==> a in old(albums.Values) || fresh(a)
        invariant var r := ScanFiles(env, root, files[..j], sd);
          View() == r.albums && trackIDList == r.ids && trackCount' == r.count && LastAlbum(hasMusic, albumName) == r.last
      {
        ScanFilesPrefix(env, root, files, j, sd);
        trackCount', hasMusic, albumName := ScanOne(root, files[j], tags, fs, trackCount', hasMusic, albumName);
        j := j + 1;
      }
      assert files[..j] == files;
    }

    /** One turn of the outer loop of `folderTraversal`, for one directory of
        the walk: its files, then its cover for the album of the last track
        appended there. */
    method ScanDirectory(e: WalkEntry, tags: string -> Option<Metadata>, fs: Fs, ghost env: Env, trackCount: nat)
      returns (trackCount': nat)
      requires Valid() && env == ScanEnv(tags, fs)
      modifies this, albums.Values
      ensures Valid() && env == ScanEnv(tags, fs)
      ensures forall a :: a in albums.Values ==> a in old(albums.Values) || fresh(a)
      ensures var r := ScanDir(env, e, ScanState(old(View()), old(trackIDList), trackCount, None));
        View() == r.albums && trackIDList == r.ids && trackCount' == r.count
    {
      var hasMusic, albumName;
      trackCount', hasMusic, albumName := ScanFilesOf(e.root, e.files, tags, fs, env, trackCount);
      if hasMusic {
        SetCover(albumName, DetectCoverFile(fs, e.root));
      }
    }

    /** `folderTraversal(folderPath)`, where `walk` is what `os.walk` yields
        under the folder and `tags` is `TinyTag.get` (`None` where it raises
        LookupError). The albums and the ID set are those of the scan,
        starting from their old contents; `progress.total` is this call's
        count alone. */
    method FolderTraversal(walk: seq<WalkEntry>, tags: string -> Option<Metadata>, fs: Fs)
      requires Valid()
      modifies this, albums.Values, progress
      ensures Valid()
      ensures var r := ScanWalk(ScanEnv(tags, fs), walk, ScanState(old(View()), old(trackIDList), 0, None));
        View() == r.albums && trackIDList == r.ids && progress.total == r.count
      ensures progress.finished == old(progress.finished)
    {
      ghost var env := ScanEnv(tags, fs);
      ghost var st0 := ScanState(View(), trackIDList, 0, None);
      var trackCount := 0;
      var i := 0;
      while i < |walk|
        invariant 0 <= i <= |walk|
        invariant Valid() && env == ScanEnv(tags, fs)
        invariant forall a :: a in albums.Values ==> a in old(albums.Values) || fresh(a)
        invariant var r := ScanWalk(env, walk[..i], st0);
          View() == r.albums && trackIDList == r.ids && trackCount == r.count
        invariant progress.finished == old(progress.finished)
      {
        ScanWalkPrefix(env, walk, i, st0);
        trackCount := ScanDirectory(walk[i], tags, fs, env, trackCount);
        i := i + 1;
      }
      assert walk[..i] == walk;
      progress.SetTotal(trackCount);
    }

    /** The first half of `__trackHandle`: encode or copy the track's file, or
        nothing in a dry run. */
    method PlaceTrack(t: Track, fs: Fs, tmpFile: string, runs: seq<RunOutcome>) returns (fsOut: Fs, p: Placement)
      ensures (fsOut, p) == Place(dryRun, t, fs, encoderSetting, tmpFile, runs, table)
    {
      fsOut, p := fs, NotPlaced;
      if !dryRun {
        if t.lossless {
          var fsE, args, enc := Encode(fs, t.filePath, GetFilePath(t, "", table), encoderSetting, tmpFile, runs);
          fsOut, p := fsE, ToPlacement(enc);
        } else {
          var dst := GetFilePath(t, Ext(t.filePath), table);
          var copied := Copy(fs, t.filePath, dst);
          if copied.Err? {
            p := PlaceFailed(copied.error);
          } else {
            fsOut, p := copied.value, Placed(dst);
          }
        }
      }
    }

    /** The second half of `__trackHandle`: `record.add(track)` with the path
        the placement gave, then `progress.increase()`. */
    method CommitTrack(t: Track, p: Placement) returns (out: HandleOutcome)
      requires record.Valid()
      modifies record, progress
      ensures record.Valid()
      ensures (record.record, progress.finished, out) == Commit(t, p, old(record.record), old(progress.finished), progress.total)
      ensures progress.total == old(progress.total)
    {
      if p.PlaceFailed? {
        return Raised(p.error);
      } else if p.StillEncoding? {
        return Encoding;
      }
      var track := if p.Placed? then t.(syncedFilePath := Some(p.path)) else t;
      if track.syncedFilePath.None? {
        return Raised(AttributeError);
      }
      record.Add(track);
      var inc := progress.Increase();
      if inc.Err? {
        return Raised(inc.error);
      }
      out := Handled(track);
    }

    /** `__trackHandle(track)`: place the file as `Place` says, then record
        and count it as `Commit` says. In a dry run the track keeps its
        `syncedFilePath` (none, for a track of the scan), so `record.add`
        raises AttributeError and nothing changes. */
    method TrackHandle(t: Track, fs: Fs, tmpFile: string, runs: seq<RunOutcome>)
      returns (fsOut: Fs, out: HandleOutcome)
      requires record.Valid()
      modifies record, progress
      ensures record.Valid()
      ensures var pl := Place(dryRun, t, fs, encoderSetting, tmpFile, runs, table);
        fsOut == pl.0 && (record.record, progress.finished, out) == Commit(t, pl.1, old(record.record), old(progress.finished), progress.total)
      ensures progress.total == old(progress.total)
    {
      var p;
      fsOut, p := PlaceTrack(t, fs, tmpFile, runs);
      out := CommitTrack(t, p);
    }

    /** One stale ID of `prune`: delete the file, the directory when only
        cover images are left in it, and the record entry. */
    method PruneTrack(trackID: string, fs: Fs) returns (fsOut: Fs, r: Result<()>)
      requires record.Valid()
      modifies record
      ensures record.Valid()
      ensures PruneState(record.record, fsOut, r) == PruneOne(PruneState(old(record.record), fs, Ok(())), trackID)
    {
      fsOut, r := fs, Ok(());
      var path := record.Get(trackID);
      if path.Err? {
        return fs, Err(path.error);
      }
      var removed := Remove(fs, path.value);
      if removed.Err? {
        return fs, Err(removed.error);
      }
      fsOut := removed.value;
      var fileDir := DirName(record.Get(trackID).value);
      var names := ListDir(fsOut, fileDir);
      if names.Err? {
        return fsOut, Err(names.error);
      }
      if names.value - CoverNameSet == {} {
        fsOut := RmTree(fsOut, fileDir).value;
      }
      var gone := record.Remove(trackID);
    }

    /** The loop of `prune` over the IDs in `order`: each one the last scans
        did not see is pruned, until the first error. */
    method PruneIds(order: seq<string>, fs: Fs) returns (fsOut: Fs, r: Result<()>)
      requires record.Valid()
      modifies record
      ensures record.Valid()
      ensures PruneState(record.record, fsOut, r) == PruneLoop(order, trackIDList, PruneState(old(record.record), fs, Ok(())))
    {
      ghost var start := PruneState(record.record, fs, Ok(()));
      fsOut, r := fs, Ok(());
      var i := 0;
      while i < |order|
        invariant 0 <= i <= |order|
        invariant record.Valid()
        invariant PruneLoop(order[..i], trackIDList, start) == PruneState(record.record, fsOut, r)
      {
        ghost var prev := PruneState(record.record, fsOut, r);
        PruneLoopStep(order, i, trackIDList, start);
        if r.Ok? && order[i] !in trackIDList {
          fsOut, r := PruneTrack(order[i], fsOut);
          assert PruneState(record.record, fsOut, r) == PruneOne(prev, order[i]);
        }
        i := i + 1;
      }
      assert order[..i] == order;
    }

    /** `prune()`: over the record's IDs in `idList()` order, every ID the
        last scans did not see loses its file, its directory when only cover
        images remain there, and its record entry. The order used is
        returned. Ending without an exception, the record holds exactly the
        old entries whose IDs were seen, with their old paths, and no pruned
        track's file remains. */
    method Prune(fs: Fs) returns (fsOut: Fs, r: Result<()>, order: seq<string>)
      requires Valid()
      modifies record
      ensures Valid()
      ensures forall k :: k in order <==> k in old(record.record)
      ensures forall i, j :: 0 <= i < j < |order| ==> order[i] != order[j]
      ensures var st := PruneLoop(order, trackIDList, PruneState(old(record.record), fs, Ok(())));
        record.record == st.record && fsOut == st.fs && r == st.outcome
      ensures r.Ok? ==>
        && (forall id :: id in record.record <==> id in old(record.record) && id in trackIDList)
        && (forall id :: id in record.record ==> record.record[id] == old(record.record)[id])
        && (forall id :: id in old(record.record) && id !in trackIDList ==> !IsFile(fsOut, old(record.record)[id]))
    {
      ghost var start := PruneState(record.record, fs, Ok(()));
      order := record.IdList();
      fsOut, r := PruneIds(order, fs);
      PruneResult(order, trackIDList, start);
    }
  }
}
