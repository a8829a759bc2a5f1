/** The older sync engine of sync.py. It calls `Record(path, interval)`,
    `metadata in record`, `record.get`, `record.remove` and
    `Album.addTrack`, which the list-based record and the album of objects.py
    do not have; it is modelled against the map-based `RecordStore.Record`
    and with `addTrack` as an append. Albums are keyed by the album tag
    itself, `None` included, and hold `LegacyObjects` tracks. */
module LegacySync {
  import opened Wrappers
  import opened Paths
  import opened Tags
  import opened Utils
  import opened LegacyUtils
  import opened LegacyObjects
  import opened ProgressTracker
  import opened RecordStore
  import opened FileSystem
  import opened SyncSpec

  // ----- __checkValid ----------------------------------------------------------

  /** The longest track still taken for a single song: 15 minutes. */
  const MaxDuration: real := 60.0 * 15.0

  /** `__checkValid(metadata)`: not longer than 15 minutes, not of a
      blacklisted album, not already in the record. */
  function CheckValid(m: Metadata, blacklist: seq<string>, recorded: set<string>, md5: Hash): (b: bool)
    ensures b <==> m.duration <= 900.0 && !(m.album.Some? && m.album.value in blacklist) && GenId(m, md5) !in recorded
  {
    if m.duration > MaxDuration then false
    else if m.album.Some? && m.album.value in blacklist then false
    else if GenId(m, md5) in recorded then false
    else true
  }

  /** The duration bound is inclusive: exactly 15 minutes passes, a
      thousandth of a second more does not; and a track with no album tag is
      never blacklisted. */
  lemma CheckValidBoundary(album: Option<string>, title: Option<string>, track: Option<string>,
                           blacklist: seq<string>, recorded: set<string>, md5: Hash)
    requires album.Some? ==> album.value !in blacklist
    requires GenId(Metadata(album, title, 900.0, track), md5) !in recorded
    ensures CheckValid(Metadata(album, title, 900.0, track), blacklist, recorded, md5)
    ensures !CheckValid(Metadata(album, title, 900.001, track), blacklist, recorded, md5)
    ensures CheckValid(Metadata(None, title, 900.0, track), blacklist, recorded, md5)
            <==> GenId(Metadata(None, title, 900.0, track), md5) !in recorded
  {
  }

  // ----- __getFilePath ---------------------------------------------------------

  /** `__getFilePath(album, title, ext)`: the sanitized album joined with the
      sanitized title, then the extension. Each absent name draws its own
      random string. */
  function LegacyGetFilePath(album: Option<string>, title: Option<string>, ext: string,
                             table: Transliteration, randAlbum: RandomSource, randTitle: RandomSource): string {
    Join(Fat32Sanitize(album, table, randAlbum), Fat32Sanitize(title, table, randTitle)) + ext
  }

  lemma Fat32HasNoSlash(name: Option<string>, table: Transliteration, rand: RandomSource)
    ensures '/' !in Fat32Sanitize(name, table, rand)
  {
    var r := Fat32Sanitize(name, table, rand);
    if name.None? {
      assert forall i :: 0 <= i < 5 ==> r[i] != '/';
    } else {
      assert forall i :: 0 <= i < |r| ==> r[i] != '/';
    }
  }

  /** For an extension without a slash, the path splits back into the
      sanitized album directory and the sanitized title with the extension;
      an absent album gives a directory of five random hexadecimal digits. */
  lemma LegacyGetFilePathParts(album: Option<string>, title: Option<string>, ext: string,
                               table: Transliteration, randAlbum: RandomSource, randTitle: RandomSource)
    requires '/' !in ext
    ensures var d := Fat32Sanitize(album, table, randAlbum);
      Split(LegacyGetFilePath(album, title, ext, table, randAlbum, randTitle))
        == (d, Fat32Sanitize(title, table, randTitle) + ext)
    ensures album.None? ==>
      |DirName(LegacyGetFilePath(album, title, ext, table, randAlbum, randTitle))| == 5
  {
    var d := Fat32Sanitize(album, table, randAlbum);
    var n := Fat32Sanitize(title, table, randTitle);
    Fat32HasNoSlash(album, table, randAlbum);
    Fat32HasNoSlash(title, table, randTitle);
    JoinAppend(d, n, ext);
    assert '/' !in n + ext;
    SplitJoinNoSlash(d, n + ext);
  }

  // ----- the scan of folderTraversal -------------------------------------------

  datatype LegacyAlbumValue = LegacyAlbumValue(tracks: seq<LegacyTrack>, coverFile: Option<string>)

  /** What the scan reads but does not change: the tag reader, the
      configuration's `blacklistAlbum`, the keys of the record, the digest
      and the file system. */
  datatype LegacyEnv = LegacyEnv(
    tags: string -> Option<Metadata>,
    blacklist: seq<string>,
    recorded: set<string>,
    md5: Hash,
    fs: Fs)

  /** The albums, the ID set, the local count, and `albumName` of the
      current directory when `hasMusic` holds. */
  datatype LegacyScan = LegacyScan(
    albums: map<Option<string>, LegacyAlbumValue>, ids: set<string>, count: nat, last: Option<Option<string>>)

  predicate LegacyLastKnown(st: LegacyScan) {
    st.last.Some? ==> st.last.value in st.albums
  }

  predicate Passes(env: LegacyEnv, m: Metadata) {
    CheckValid(m, env.blacklist, env.recorded, env.md5)
  }

  /** An accepted file: its album tag and its track. */
  datatype Entry = Entry(album: Option<string>, track: LegacyTrack)

  /** The entry a file contributes: one when its tags read and pass
      `__checkValid`, none otherwise. */
  function ValidOne(env: LegacyEnv, path: string): (r: seq<Entry>)
    ensures |r| <= 1
  {
    match env.tags(path)
    case Some(m) => if Passes(env, m) then [Entry(m.album, NewLegacyTrack(m, path))] else []
    case None => []
  }

  function LegacyReadOne(env: LegacyEnv, path: string): set<string> {
    match env.tags(path)
    case Some(m) => {GenId(m, env.md5)}
    case None => {}
  }

  function LegacyTracksOf(albums: map<Option<string>, LegacyAlbumValue>, name: Option<string>): seq<LegacyTrack> {
    if name in albums then albums[name].tracks else []
  }

  /** The body of the inner loop for one file. */
  function LegacyScanFile(env: LegacyEnv, root: string, f: string, st: LegacyScan): (r: LegacyScan)
    ensures LegacyLastKnown(st) ==> LegacyLastKnown(r)
  {
    var path := Join(root, f);
    match env.tags(path)
    case None => st
    case Some(m) =>
      var ids := st.ids + {GenId(m, env.md5)};
      if Passes(env, m) then
        var album := if m.album in st.albums then st.albums[m.album] else LegacyAlbumValue([], Some(""));
        LegacyScan(st.albums[m.album := album.(tracks := album.tracks + [NewLegacyTrack(m, path)])],
                   ids, st.count + 1, Some(m.album))
      else st.(ids := ids)
  }

  function LegacyScanFiles(env: LegacyEnv, root: string, files: seq<string>, st: LegacyScan): (r: LegacyScan)
    ensures LegacyLastKnown(st) ==> LegacyLastKnown(r)
  {
    if files == [] then st
    else LegacyScanFile(env, root, files[|files| - 1], LegacyScanFiles(env, root, files[..|files| - 1], st))
  }

  /** One directory: its files, then `__detectCoverFile(root)` for the album
      of its last valid track. */
  function LegacyScanDir(env: LegacyEnv, e: WalkEntry, st: LegacyScan): (r: LegacyScan)
    ensures r.last.Some? ==> r.last.value in r.albums
  {
    var s := LegacyScanFiles(env, e.root, e.files, st.(last := None));
    match s.last
    case None => s
    case Some(name) => s.(albums := s.albums[name := s.albums[name].(coverFile := DetectCoverFile(env.fs, e.root))])
  }

  function LegacyScanWalk(env: LegacyEnv, walk: seq<WalkEntry>, st: LegacyScan): LegacyScan {
    if walk == [] then st else LegacyScanDir(env, walk[|walk| - 1], LegacyScanWalk(env, walk[..|walk| - 1], st))
  }

  /** One more file of a directory's loop. */
  lemma LegacyScanFilesPrefix(env: LegacyEnv, root: string, files: seq<string>, j: nat, st: LegacyScan)
    requires j < |files|
    ensures LegacyScanFiles(env, root, files[..j + 1], st) == LegacyScanFile(env, root, files[j], LegacyScanFiles(env, root, files[..j], st))
  {
    assert files[..j + 1][..j] == files[..j];
  }

  /** One more directory of the walk. */
  lemma LegacyScanWalkPrefix(env: LegacyEnv, walk: seq<WalkEntry>, i: nat, st: LegacyScan)
    requires i < |walk|
    ensures LegacyScanWalk(env, walk[..i + 1], st) == LegacyScanDir(env, walk[i], LegacyScanWalk(env, walk[..i], st))
  {
    assert walk[..i + 1][..i] == walk[..i];
  }

  // A reference description of the scan, file by file.

  function ValidEntries(env: LegacyEnv, root: string, files: seq<string>): seq<Entry> {
    if files == [] then []
    else ValidEntries(env, root, files[..|files| - 1]) + ValidOne(env, Join(root, files[|files| - 1]))
  }

  function LegacyReadIds(env: LegacyEnv, root: string, files: seq<string>): set<string> {
    if files == [] then {}
    else LegacyReadIds(env, root, files[..|files| - 1]) + LegacyReadOne(env, Join(root, files[|files| - 1]))
  }

  /** The tracks of the entries for one album tag, in order. */
  function TracksFor(es: seq<Entry>, name: Option<string>): seq<LegacyTrack> {
    if es == [] then []
    else TracksFor(es[..|es| - 1], name) + (if es[|es| - 1].album == name then [es[|es| - 1].track] else [])
  }

  lemma {:induction false} TracksForAppend(a: seq<Entry>, b: seq<Entry>, name: Option<string>)
    ensures TracksFor(a + b, name) == TracksFor(a, name) + TracksFor(b, name)
  {
    if b == [] {
      assert a + b == a;
    } else {
      assert (a + b)[..|a + b| - 1] == a + b[..|b| - 1];
      assert (a + b)[|a + b| - 1] == b[|b| - 1];
      TracksForAppend(a, b[..|b| - 1], name);
    }
  }

  /** The effect of one file on the engine's collections. */
  lemma LegacyScanFileStep(env: LegacyEnv, root: string, f: string, st: LegacyScan)
    ensures var r := LegacyScanFile(env, root, f, st);
      var a := ValidOne(env, Join(root, f));
      && r.ids == st.ids + LegacyReadOne(env, Join(root, f))
      && r.count == st.count + |a|
      && (forall name :: LegacyTracksOf(r.albums, name) == LegacyTracksOf(st.albums, name) + TracksFor(a, name))
      && st.albums.Keys <= r.albums.Keys
      && (forall name :: name in st.albums ==> r.albums[name].coverFile == st.albums[name].coverFile)
      && (forall name :: name in r.albums && name !in st.albums ==> r.albums[name].coverFile == Some(""))
      && (a == [] ==> r.last == st.last && r.albums == st.albums)
      && (a != [] ==> r.last == Some(a[0].album) && a[0].album in r.albums)
  {
    var a := ValidOne(env, Join(root, f));
    if a != [] {
      assert a == [a[0]] && a[..0] == [];
    }
  }

  lemma {:induction false} LegacyScanFilesIds(env: LegacyEnv, root: string, files: seq<string>, st: LegacyScan)
    ensures LegacyScanFiles(env, root, files, st).ids == st.ids + LegacyReadIds(env, root, files)
    ensures LegacyScanFiles(env, root, files, st).count == st.count + |ValidEntries(env, root, files)|
  {
    if files != [] {
      LegacyScanFilesIds(env, root, files[..|files| - 1], st);
      LegacyScanFileStep(env, root, files[|files| - 1], LegacyScanFiles(env, root, files[..|files| - 1], st));
    }
  }

  lemma {:induction false} LegacyScanFilesTracks(env: LegacyEnv, root: string, files: seq<string>, st: LegacyScan)
    ensures forall name :: LegacyTracksOf(LegacyScanFiles(env, root, files, st).albums, name)
                           == LegacyTracksOf(st.albums, name) + TracksFor(ValidEntries(env, root, files), name)
  {
    forall name ensures LegacyTracksOf(LegacyScanFiles(env, root, files, st).albums, name)
                        == LegacyTracksOf(st.albums, name) + TracksFor(ValidEntries(env, root, files), name) {
      LegacyScanFilesTracksOf(env, root, files, st, name);
    }
  }

  /** `LegacyScanFilesTracks` for one album name. */
  lemma {:induction false} LegacyScanFilesTracksOf(env: LegacyEnv, root: string, files: seq<string>, st: LegacyScan,
                                                   name: Option<string>)
    ensures LegacyTracksOf(LegacyScanFiles(env, root, files, st).albums, name)
            == LegacyTracksOf(st.albums, name) + TracksFor(ValidEntries(env, root, files), name)
  {
    if files == [] {
      assert LegacyTracksOf(st.albums, name) + [] == LegacyTracksOf(st.albums, name);
    } else {
      var init := files[..|files| - 1];
      var path := Join(root, files[|files| - 1]);
      var mid := LegacyScanFiles(env, root, init, st);
      LegacyScanFilesTracksOf(env, root, init, st, name);
      LegacyScanFileStep(env, root, files[|files| - 1], mid);
      TracksForAppend(ValidEntries(env, root, init), ValidOne(env, path), name);
      LegacyConcatAssoc(LegacyTracksOf(st.albums, name), TracksFor(ValidEntries(env, root, init), name),
                        TracksFor(ValidOne(env, path), name));
    }
  }

  lemma LegacyConcatAssoc(a: seq<LegacyTrack>, b: seq<LegacyTrack>, c: seq<LegacyTrack>)
    ensures (a + b) + c == a + (b + c)
  {
  }

  lemma {:induction false} LegacyScanFilesCovers(env: LegacyEnv, root: string, files: seq<string>, st: LegacyScan)
    ensures var r := LegacyScanFiles(env, root, files, st);
      var acc := ValidEntries(env, root, files);
      && st.albums.Keys <= r.albums.Keys
      && (forall name :: name in st.albums ==> r.albums[name].coverFile == st.albums[name].coverFile)
      && (acc == [] ==> r.last == st.last && r.albums == st.albums)
      && (acc != [] ==> r.last == Some(acc[|acc| - 1].album) && acc[|acc| - 1].album in r.albums)
  {
    if files != [] {
      var init := files[..|files| - 1];
      LegacyScanFilesCovers(env, root, init, st);
      LegacyScanFileStep(env, root, files[|files| - 1], LegacyScanFiles(env, root, init, st));
      var one := ValidOne(env, Join(root, files[|files| - 1]));
      if one != [] {
        assert ValidEntries(env, root, files)[|ValidEntries(env, root, files)| - 1] == one[0];
      }
    }
  }

  /** After one directory: every readable file's fingerprint is in the ID
      set, each valid file's track is appended in order to the album of its
      tag, the count grows by the number of valid files, and the album of the
      last valid file (if any) gets the directory's cover while every other
      album keeps its own. */
  lemma LegacyScanDirSpec(env: LegacyEnv, e: WalkEntry, st: LegacyScan)
    ensures var r := LegacyScanDir(env, e, st);
      var acc := ValidEntries(env, e.root, e.files);
      && r.ids == st.ids + LegacyReadIds(env, e.root, e.files)
      && r.count == st.count + |acc|
      && (forall name :: LegacyTracksOf(r.albums, name) == LegacyTracksOf(st.albums, name) + TracksFor(acc, name))
      && st.albums.Keys <= r.albums.Keys
      && (acc != [] ==> acc[|acc| - 1].album in r.albums)
    ensures var r := LegacyScanDir(env, e, st);
      var acc := ValidEntries(env, e.root, e.files);
      && (acc != [] ==> r.albums[acc[|acc| - 1].album].coverFile == DetectCoverFile(env.fs, e.root))
      && (forall name :: name in st.albums && (acc == [] || name != acc[|acc| - 1].album) ==>
            r.albums[name].coverFile == st.albums[name].coverFile)
      && (acc == [] ==> r.albums == st.albums)
  {
    var st0 := st.(last := None);
    LegacyScanFilesIds(env, e.root, e.files, st0);
    LegacyScanFilesTracks(env, e.root, e.files, st0);
    LegacyScanFilesCovers(env, e.root, e.files, st0);
  }

  function ValidInWalk(env: LegacyEnv, walk: seq<WalkEntry>): seq<Entry> {
    if walk == [] then []
    else ValidInWalk(env, walk[..|walk| - 1]) + ValidEntries(env, walk[|walk| - 1].root, walk[|walk| - 1].files)
  }

  function LegacyReadIdsInWalk(env: LegacyEnv, walk: seq<WalkEntry>): set<string> {
    if walk == [] then {}
    else LegacyReadIdsInWalk(env, walk[..|walk| - 1]) + LegacyReadIds(env, walk[|walk| - 1].root, walk[|walk| - 1].files)
  }

  /** Over the whole walk: the IDs of all readable files are added, valid or
      not, and the count is the number of valid files of this walk alone. */
  lemma {:induction false} LegacyScanWalkCounts(env: LegacyEnv, walk: seq<WalkEntry>, st: LegacyScan)
    ensures LegacyScanWalk(env, walk, st).ids == st.ids + LegacyReadIdsInWalk(env, walk)
    ensures LegacyScanWalk(env, walk, st).count == st.count + |ValidInWalk(env, walk)|
  {
    if walk != [] {
      var init := walk[..|walk| - 1];
      LegacyScanWalkCounts(env, init, st);
      LegacyScanDirSpec(env, walk[|walk| - 1], LegacyScanWalk(env, init, st));
    }
  }

  /** Over the whole walk, only valid tracks are grouped, album tag by album
      tag, in walk order. */
  lemma {:induction false} LegacyScanWalkTracks(env: LegacyEnv, walk: seq<WalkEntry>, st: LegacyScan)
    ensures forall name :: LegacyTracksOf(LegacyScanWalk(env, walk, st).albums, name)
                           == LegacyTracksOf(st.albums, name) + TracksFor(ValidInWalk(env, walk), name)
  {
    if walk != [] {
      var init := walk[..|walk| - 1];
      var e := walk[|walk| - 1];
      LegacyScanWalkTracks(env, init, st);
      LegacyScanDirSpec(env, e, LegacyScanWalk(env, init, st));
      forall name ensures TracksFor(ValidInWalk(env, walk), name)
                          == TracksFor(ValidInWalk(env, init), name) + TracksFor(ValidEntries(env, e.root, e.files), name) {
        TracksForAppend(ValidInWalk(env, init), ValidEntries(env, e.root, e.files), name);
      }
    }
  }

  // ----- prune, as written --------------------------------------------------

  /** One stale track as `prune` is written: `os.remove(record.get(id))`,
      then `record.remove(id)`, then `record.get(id)` again for the
      directory. */
  function PruneOneAsWritten(st: PruneState, id: string): (r: PruneState)
    requires st.outcome.Ok?
  {
    match Lookup(st.record, id)
    case Err(e) => st.(outcome := Err(e))
    case Ok(path) =>
      match Remove(st.fs, path)
      case Err(e) => st.(outcome := Err(e))
      case Ok(fs1) =>
        var rec := st.record - {id};
        match Lookup(rec, id)
        case Err(e) => PruneState(rec, fs1, Err(e))
        case Ok(again) =>
          match ListDir(fs1, DirName(again))
          case Err(e) => PruneState(rec, fs1, Err(e))
          case Ok(names) =>
            if names - CoverNameSet == {} then
              match RmTree(fs1, DirName(again))
              case Err(e) => PruneState(rec, fs1, Err(e))
              case Ok(fs2) => PruneState(rec, fs2, Ok(()))
            else PruneState(rec, fs1, Ok(()))
  }

  /** The first stale track always ends `prune` with an exception. When its
      file exists, the file is deleted and the record entry removed, and then
      the second `record.get` raises KeyError, so the directory is never
      examined. */
  lemma PruneAsWrittenRaises(st: PruneState, id: string)
    requires st.outcome.Ok?
    ensures PruneOneAsWritten(st, id).outcome.Err?
    ensures id in st.record && IsFile(st.fs, st.record[id]) ==>
      PruneOneAsWritten(st, id) == PruneState(st.record - {id}, Remove(st.fs, st.record[id]).value, Err(KeyError))
  {
  }

  lemma ExampleDirName()
    ensures DirName("A/s.mp3") == "A"
  {
    assert Join("A", "s.mp3") == "A/s.mp3";
    SplitJoin("A", "s.mp3");
  }

  /** A concrete case: a record with one stale track "t" at "A/s.mp3", a file
      in directory "A". The corrected `SyncSpec.PruneOne` deletes the file
      and the entry and goes on; as written, prune raises KeyError. */
  lemma PruneAsWrittenExample()
    ensures var st := PruneState(map["t" := "A/s.mp3"], Fs({"A/s.mp3"}, {"A"}), Ok(()));
      && PruneOneAsWritten(st, "t") == PruneState(map[], Fs({}, {"A"}), Err(KeyError))
      && PruneOne(st, "t").outcome == Ok(())
      && PruneOne(st, "t").record == map[]
      && !IsFile(PruneOne(st, "t").fs, "A/s.mp3")
  {
    var st := PruneState(map["t" := "A/s.mp3"], Fs({"A/s.mp3"}, {"A"}), Ok(()));
    PruneAsWrittenRaises(st, "t");
    assert st.record - {"t"} == map[];
    assert st.fs.files - {"A/s.mp3"} == {};
    assert Remove(st.fs, "A/s.mp3") == Ok(Fs({}, {"A"}));
    ExampleDirName();
    PruneOneDirectory(st, "t");
  }

  /** The loop of `prune` as written; the first exception ends it. */
  function PruneLoopAsWritten(order: seq<string>, keep: set<string>, start: PruneState): PruneState {
    if order == [] then start
    else
      var prev := PruneLoopAsWritten(order[..|order| - 1], keep, start);
      var id := order[|order| - 1];
      if prev.outcome.Err? || id in keep then prev else PruneOneAsWritten(prev, id)
  }

  /** The position of the first ID not in `keep`, or `|order|`. */
  function FirstStale(order: seq<string>, keep: set<string>): (k: nat)
    ensures k <= |order|
    ensures forall j :: 0 <= j < k ==> order[j] in keep
    ensures k < |order| ==> order[k] !in keep
  {
    if order == [] then 0
    else
      var k := FirstStale(order[..|order| - 1], keep);
      if k < |order| - 1 then k
      else if order[|order| - 1] in keep then |order|
      else |order| - 1
  }

  /** As written, `prune` touches only the first stale track: with none,
      nothing changes; otherwise the state is that one step's and prune has
      raised. */
  lemma {:induction false} PruneStopsAtFirstStale(order: seq<string>, keep: set<string>, start: PruneState)
    requires start.outcome.Ok?
    ensures var k := FirstStale(order, keep);
      && (k == |order| ==> PruneLoopAsWritten(order, keep, start) == start)
      && (k < |order| ==> PruneLoopAsWritten(order, keep, start) == PruneOneAsWritten(start, order[k]))
      && (k < |order| ==> PruneLoopAsWritten(order, keep, start).outcome.Err?)
  {
    if order != [] {
      var init := order[..|order| - 1];
      PruneStopsAtFirstStale(init, keep, start);
      var k := FirstStale(init, keep);
      if k < |init| {
        assert init[k] == order[k];
        PruneAsWrittenRaises(start, order[k]);
      } else if order[|order| - 1] !in keep {
        PruneAsWrittenRaises(start, order[|order| - 1]);
      }
    }
  }

  // ----- the engine ------------------------------------------------------------

  class LegacyMusicSync {
    var albums: map<Option<string>, LegacyAlbum>
    var trackIDList: set<string>
    const progress: Progress
    const record: Record
    /** The configuration's `blacklistAlbum`. */
    const blacklist: seq<string>

    predicate Valid()
      reads this, albums.Values, record
    {
      && (forall k1, k2 :: k1 in albums && k2 in albums && k1 != k2 ==> albums[k1] != albums[k2])
      && (forall k :: k in albums ==> albums[k].title == k)
      && record.Valid()
    }

    function View(): map<Option<string>, LegacyAlbumValue>
      reads this, albums.Values
    {
      map k | k in albums :: LegacyAlbumValue(albums[k].tracks, albums[k].coverFile)
    }

    function ScanEnv(tags: string -> Option<Metadata>, fs: Fs): LegacyEnv
      reads this, record
    {
      LegacyEnv(tags, blacklist, record.record.Keys, record.md5, fs)
    }

    /** `musicSync(config)`: the record is loaded from its file (the
        autosave thread is not modelled). */
    constructor(recordFile: Option<map<string, string>>, autosaveInterval: real, md5: Hash, blacklist: seq<string>)
      ensures Valid()
      ensures albums == map[] && trackIDList == {}
      ensures progress.finished == 0 && progress.total == 0
      ensures record.record == (if recordFile.Some? then recordFile.value else map[]) && record.md5 == md5
      ensures this.blacklist == blacklist
    {
      var r := new Record(recordFile, autosaveInterval, md5);
      var p := new Progress();
      record, progress := r, p;
      albums, trackIDList := map[], {};
      this.blacklist := blacklist;
    }

    /** `albums[name].addTrack(t)`, creating `Album(name)` first if new. */
    method AddToAlbum(name: Option<string>, t: LegacyTrack)
      requires Valid()
      modifies this, albums.Values
      ensures Valid()
      ensures var a := if name in old(View()) then old(View())[name] else LegacyAlbumValue([], Some(""));
        View() == old(View())[name := a.(tracks := a.tracks + [t])]
      ensures forall a :: a in albums.Values ==> a in old(albums.Values) || fresh(a)
      ensures trackIDList == old(trackIDList)
    {
      if name !in albums {
        CreateAlbum(name);
      }
      AppendTrack(name, t);
    }

    /** `albums[name] = LegacyAlbum(name)` for a new name. */
    method CreateAlbum(name: Option<string>)
      requires Valid() && name !in albums
      modifies this
      ensures Valid() && name in albums
      ensures View() == old(View())[name := LegacyAlbumValue([], Some(""))]
      ensures forall a :: a in albums.Values ==> a in old(albums.Values) || fresh(a)
      ensures trackIDList == old(trackIDList)
    {
      var a := new LegacyAlbum(name);
      albums := albums[name := a];
    }

    /** `albums[name].addTrack(t)` for a known name. */
    method AppendTrack(name: Option<string>, t: LegacyTrack)
      requires Valid() && name in albums
      modifies albums[name]
      ensures Valid()
      ensures View() == old(View())[name := old(View())[name].(tracks := old(View())[name].tracks + [t])]
    {
      albums[name].AddTrack(t);
    }

    /** `trackIDList.add(id)`. */
    method AddId(id: string)
      requires Valid()
      modifies this
      ensures Valid()
      ensures trackIDList == old(trackIDList) + {id}
      ensures albums == old(albums) && View() == old(View())
    {
      trackIDList := trackIDList + {id};
    }

    /** `albums[name].coverFile = cover`. */
    method SetCover(name: Option<string>, cover: Option<string>)
      requires Valid() && name in albums
      modifies albums[name]
      ensures Valid()
      ensures View() == old(View())[name := old(View())[name].(coverFile := cover)]
    {
      albums[name].coverFile := cover;
    }

    static function LastAlbum(hasMusic: bool, albumName: Option<string>): Option<Option<string>> {
      if hasMusic then Some(albumName) else None
    }

    /** One turn of the inner loop of `folderTraversal`. */
    method ScanOne(root: string, f: string, tags: string -> Option<Metadata>, fs: Fs,
                   trackCount: nat, hasMusic: bool, albumName: Option<string>)
      returns (trackCount': nat, hasMusic': bool, albumName': Option<string>)
      requires Valid()
      modifies this, albums.Values
      ensures Valid()
      ensures forall a :: a in albums.Values ==> a in old(albums.Values) || fresh(a)
      ensures var r := LegacyScanFile(ScanEnv(tags, fs), root, f,
                                      LegacyScan(old(View()), old(trackIDList), trackCount, LastAlbum(hasMusic, albumName)));
        View() == r.albums && trackIDList == r.ids && trackCount' == r.count && LastAlbum(hasMusic', albumName') == r.last
    {
      ghost var env := ScanEnv(tags, fs);
      ghost var st := LegacyScan(View(), trackIDList, trackCount, LastAlbum(hasMusic, albumName));
      trackCount', hasMusic', albumName' := trackCount, hasMusic, albumName;
      var fullPath := Join(root, f);
      var metadata := tags(fullPath);
      if metadata.None? {
        assert LegacyScanFile(env, root, f, st) == st;
      } else {
        var m := metadata.value;
        assert env.tags(fullPath) == Some(m);
        AddId(GenId(m, record.md5));
        if CheckValid(m, blacklist, record.record.Keys, record.md5) {
          albumName' := m.album;
          var newTrack := NewLegacyTrack(m, fullPath);
          ghost var a := if albumName' in st.albums then st.albums[albumName'] else LegacyAlbumValue([], Some(""));
          assert LegacyScanFile(env, root, f, st) == LegacyScan(st.albums[albumName' := a.(tracks := a.tracks + [newTrack])],
                                                               st.ids + {GenId(m, env.md5)}, trackCount + 1, Some(albumName')) by {
            assert Passes(env, m);
          }
          AddToAlbum(albumName', newTrack);
          hasMusic' := true;
          trackCount' := trackCount + 1;
        } else {
          assert LegacyScanFile(env, root, f, st) == st.(ids := st.ids + {GenId(m, env.md5)});
        }
      }
    }

    /** The inner loop of `folderTraversal` over the files of one directory,
        from `hasMusic = False` and the initial `albumName`. */
    method ScanFilesOf(root: string, files: seq<string>, tags: string -> Option<Metadata>, fs: Fs, ghost env: LegacyEnv, trackCount: nat)
      returns (trackCount': nat, hasMusic: bool, albumName: Option<string>)
      requires Valid() && env == ScanEnv(tags, fs)
      modifies this, albums.Values
      ensures Valid() && env == ScanEnv(tags, fs)
      ensures forall a :: a in albums.Values ==> a in old(albums.Values) || fresh(a)
      ensures var r := LegacyScanFiles(env, root, files, LegacyScan(old(View()), old(trackIDList), trackCount, None));
        View() == r.albums && trackIDList == r.ids && trackCount' == r.count && LastAlbum(hasMusic, albumName) == r.last
    {
      ghost var sd := LegacyScan(View(), trackIDList, trackCount, None);
      hasMusic := false;
      albumName := Some("");
      trackCount' := trackCount;
      var j := 0;
      while j < |files|
        invariant 0 <= j <= |files|
        invariant Valid() && env == ScanEnv(tags, fs)
        invariant forall a :: a in albums.Values ==> a in old(albums.Values) || fresh(a)
        invariant var r := LegacyScanFiles(env, root, files[..j], sd);
          View() == r.albums && trackIDList == r.ids && trackCount' == r.count && LastAlbum(hasMusic, albumName) == r.last
      {
        LegacyScanFilesPrefix(env, root, files, j, sd);
        trackCount', hasMusic, albumName := ScanOne(root, files[j], tags, fs, trackCount', hasMusic, albumName);
        j := j + 1;
      }
      assert files[..j] == files;
    }

    /** One turn of the outer loop of `folderTraversal`, for one directory of
        the walk: its files, then its cover for the album of the last track
        appended there. */
    method ScanDirectory(e: WalkEntry, tags: string -> Option<Metadata>, fs: Fs, ghost env: LegacyEnv, trackCount: nat)
      returns (trackCount': nat)
      requires Valid() && env == ScanEnv(tags, fs)
      modifies this, albums.Values
      ensures Valid() && env == ScanEnv(tags, fs)
      ensures forall a :: a in albums.Values ==> a in old(albums.Values) || fresh(a)
      ensures var r := LegacyScanDir(env, e, LegacyScan(old(View()), old(trackIDList), trackCount, None));
        View() == r.albums && trackIDList == r.ids && trackCount' == r.count
    {
      var hasMusic, albumName;
      trackCount', hasMusic, albumName := ScanFilesOf(e.root, e.files, tags, fs, env, trackCount);
      if hasMusic {
        SetCover(albumName, DetectCoverFile(fs, e.root));
      }
    }

    /** `folderTraversal(folderPath)`: the albums and the ID set are those of
        the scan of `walk`, starting from their old contents, and
        `progress.total` is this call's count alone. */
    method FolderTraversal(walk: seq<WalkEntry>, tags: string -> Option<Metadata>, fs: Fs)
      requires Valid()
      modifies this, albums.Values, progress
      ensures Valid()
      ensures var r := LegacyScanWalk(ScanEnv(tags, fs), walk, LegacyScan(old(View()), old(trackIDList), 0, None));
        View() == r.albums && trackIDList == r.ids && progress.total == r.count
      ensures progress.finished == old(progress.finished)
    {
      ghost var env := ScanEnv(tags, fs);
      ghost var st0 := LegacyScan(View(), trackIDList, 0, None);
      var trackCount := 0;
      var i := 0;
      while i < |walk|
        invariant 0 <= i <= |walk|
        invariant Valid() && env == ScanEnv(tags, fs)
        invariant forall a :: a in albums.Values ==> a in old(albums.Values) || fresh(a)
        invariant var r := LegacyScanWalk(env, walk[..i], st0);
          View() == r.albums && trackIDList == r.ids && trackCount == r.count
        invariant progress.finished == old(progress.finished)
      {
        LegacyScanWalkPrefix(env, walk, i, st0);
        trackCount := ScanDirectory(walk[i], tags, fs, env, trackCount);
        i := i + 1;
      }
      assert walk[..i] == walk;
      progress.SetTotal(trackCount);
    }

    /** One stale ID of `prune`, in the order the statements are written. */
    method PruneTrack(trackID: string, fs: Fs) returns (fsOut: Fs, r: Result<()>)
      requires record.Valid()
      modifies record
      ensures record.Valid()
      ensures PruneState(record.record, fsOut, r) == PruneOneAsWritten(PruneState(old(record.record), fs, Ok(())), trackID)
    {
      fsOut, r := fs, Ok(());
      var path := record.Get(trackID);
      if path.Err? {
        return fs, Err(path.error);
      }
      var removed := Remove(fs, path.value);
      if removed.Err? {
        return fs, Err(removed.error);
      }
      fsOut := removed.value;
      var gone := record.Remove(trackID);
      match record.Get(trackID)
      case Err(e) =>
        r := Err(e);
      case Ok(again) =>
        var fileDir := DirName(again);
        match ListDir(fsOut, fileDir)
        case Err(e) =>
          r := Err(e);
        case Ok(names) =>
          if names - CoverNameSet == {} {
            match RmTree(fsOut, fileDir)
            case Err(e) =>
              r := Err(e);
            case Ok(fs2) =>
              fsOut := fs2;
          }
    }

    /** `prune()` as written: over the record's IDs in `idList()` order, the
        first ID the scans did not see has its file deleted and its entry
        removed, and then prune raises. It ends normally only when every
        recorded ID was seen, and then nothing has changed. */
    method Prune(fs: Fs) returns (fsOut: Fs, r: Result<()>, order: seq<string>)
      requires Valid()
      modifies record
      ensures Valid()
      ensures forall k :: k in order <==> k in old(record.record)
      ensures forall i, j :: 0 <= i < j < |order| ==> order[i] != order[j]
      ensures var st := PruneLoopAsWritten(order, trackIDList, PruneState(old(record.record), fs, Ok(())));
        record.record == st.record && fsOut == st.fs && r == st.outcome
      ensures r.Ok? <==> old(record.record).Keys <= trackIDList
      ensures r.Ok? ==> record.record == old(record.record) && fsOut == fs
    {
      ghost var start := PruneState(record.record, fs, Ok(()));
      order := record.IdList();
      fsOut, r := fs, Ok(());
      var i := 0;
      while i < |order|
        invariant 0 <= i <= |order|
        invariant record.Valid()
        invariant PruneLoopAsWritten(order[..i], trackIDList, start) == PruneState(record.record, fsOut, r)
      {
        assert order[..i + 1][..i] == order[..i];
        if r.Ok? && order[i] !in trackIDList {
          fsOut, r := PruneTrack(order[i], fsOut);
        }
        i := i + 1;
      }
      assert order[..i] == order;
      PruneStopsAtFirstStale(order, trackIDList, start);
      var k := FirstStale(order, trackIDList);
      if k == |order| {
        assert forall id :: id in start.record ==> id in trackIDList by {
          forall id | id in start.record ensures id in trackIDList {
            var j :| 0 <= j < |order| && order[j] == id;
          }
        }
      } else {
        assert order[k] in start.record && order[k] !in trackIDList;
      }
    }
  }
}
