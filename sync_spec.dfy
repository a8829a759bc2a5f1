/** The decisions of the sync engine in pyMusicSync/sync.py, as functions of
    explicit inputs: the directory walk, the tag reader, the file system and
    the record. `Sync.MusicSync` runs them step by step. */
module SyncSpec {
  import opened Wrappers
  import opened Text
  import opened Paths
  import opened Tags
  import opened Utils
  import opened Tracks
  import opened FileSystem
  import opened RecordStore
  import opened Encoder

  // ----- cover detection -----------------------------------------------------

  /** The names `__detectCoverFile` tries, in its order. */
  const CoverNames: seq<string> :=
    ["cover_override.jpg", "cover.png", "cover.jpg", "folder.jpg", "Cover.jpg", "folder.jpeg", "cover.jpeg"]

  /** The position of the first name that is a file in `root`, or `|names|`. */
  function FirstFile(fs: Fs, root: string, names: seq<string>): (i: nat)
    ensures i <= |names|
    ensures i < |names| ==> IsFile(fs, Join(root, names[i]))
    ensures forall j :: 0 <= j < i ==> !IsFile(fs, Join(root, names[j]))
  {
    if names == [] then 0
    else if IsFile(fs, Join(root, names[0])) then 0
    else
      var i := FirstFile(fs, root, names[1..]);
      assert forall j :: 1 <= j < i + 1 ==> names[j] == names[1..][j - 1];
      i + 1
  }

  /** `__detectCoverFile(root)`: the path of the first cover name present. */
  function DetectCoverFile(fs: Fs, root: string): Option<string> {
    var i := FirstFile(fs, root, CoverNames);
    if i < |CoverNames| then Some(Join(root, CoverNames[i])) else None
  }

  /** The cover found is the first of the seven names, in list order, that is
      a file in `root`; there is none only when none of them is. */
  lemma DetectCoverFirst(fs: Fs, root: string)
    ensures var c := DetectCoverFile(fs, root);
      && (c.Some? ==> exists i :: 0 <= i < |CoverNames| && c.value == Join(root, CoverNames[i])
                        && IsFile(fs, c.value) && forall j :: 0 <= j < i ==> !IsFile(fs, Join(root, CoverNames[j])))
      && (c.None? <==> forall i :: 0 <= i < |CoverNames| ==> !IsFile(fs, Join(root, CoverNames[i])))
  {
    var i := FirstFile(fs, root, CoverNames);
    if i < |CoverNames| {
      assert DetectCoverFile(fs, root).value == Join(root, CoverNames[i]);
    }
  }

  // ----- destination paths ---------------------------------------------------

  /** The file name `__getFilePath` formats: "{trackNum:02d}. {title}{ext}" or
      "{title}{ext}" when there is no track number. */
  function FileName(t: Track, ext: string, table: Transliteration): string {
    (if t.trackNumber.Some? then Format02d(t.trackNumber.value) + ". " else "") + SanitizeName(t.title, table) + ext
  }

  /** `__getFilePath(track, ext)`: the sanitized album as the directory. The
      album and title of a track are strings, so the random name of
      `pathSanitize(None)` never arises here. */
  function GetFilePath(t: Track, ext: string, table: Transliteration): string {
    Join(SanitizeName(t.album, table), FileName(t, ext, table))
  }

  lemma SanitizedHasNoSlash(s: string, table: Transliteration)
    ensures '/' !in SanitizeName(s, table)
  {
    SanitizeNameLegal(s, table);
    assert IllegalChars[0] == '/';
  }

  lemma Format02dHasNoSlash(n: int)
    ensures '/' !in Format02d(n)
  {
  }

  /** The two-digit form of a track number below 100 reads back as that number. */
  lemma Format02dTwoDigits(n: int)
    requires 0 <= n < 100
    ensures |Format02d(n)| == 2 && ParseInt(Format02d(n)) == Some(n)
  {
    var s := Format02d(n);
    if n < 10 {
      assert s == ['0', DigitChar(n)];
      assert ParseUnsigned(s) == Some(n) by {
        assert WellFormedDigits(s);
        assert RemoveUnderscores(s) == s;
        assert DigitsValue(s) == n by {
          assert s[..1] == ['0'] && ['0'][..0] == [];
          assert DigitsValue(['0']) == 0;
          assert DigitsValue(s) == DigitsValue(['0']) * 10 + DigitValue(DigitChar(n));
        }
      }
      assert ParseSigned(s) == Some(n) by {
        assert s[0] == '0';
      }
      assert Strip(s, Whitespace) == s by {
        assert !IsSpace(s[0]) && !IsSpace(s[1]);
        StripUnchanged(s, Whitespace);
      }
    } else {
      assert s == NatToString(n / 10) + [DigitChar(n % 10)];
      ParseIntOfIntToString(n);
    }
  }

  lemma FileNameHasNoSlash(t: Track, ext: string, table: Transliteration)
    requires '/' !in ext
    ensures '/' !in FileName(t, ext, table)
  {
    if t.trackNumber.Some? {
      Format02dHasNoSlash(t.trackNumber.value);
      assert '/' !in ". ";
    }
    SanitizedHasNoSlash(t.title, table);
  }

  /** The destination splits back into the sanitized album directory and the
      formatted file name, for any extension without a slash (so for every
      extension `splitext` returns). */
  lemma GetFilePathParts(t: Track, ext: string, table: Transliteration)
    requires '/' !in ext
    ensures Split(GetFilePath(t, ext, table)) == (SanitizeName(t.album, table), FileName(t, ext, table))
  {
    SanitizedHasNoSlash(t.album, table);
    FileNameHasNoSlash(t, ext, table);
    SplitJoinNoSlash(SanitizeName(t.album, table), FileName(t, ext, table));
  }

  /** `splitext` never returns an extension with a slash. */
  lemma ExtHasNoSlash(p: string)
    ensures '/' !in Ext(p)
  {
    SplitExtParts(p);
  }

  lemma JoinAppend(d: string, n: string, e: string)
    requires '/' !in n && '/' !in e
    ensures Join(d, n) + e == Join(d, n + e)
  {
    assert n != [] ==> n[0] in n;
    assert e != [] ==> e[0] in e;
    assert (n + e) != [] ==> (n + e)[0] in n + e;
  }

  lemma FileNameAppend(t: Track, ext: string, table: Transliteration)
    ensures FileName(t, ext, table) == FileName(t, "", table) + ext
  {
    var num := if t.trackNumber.Some? then Format02d(t.trackNumber.value) + ". " else "";
    var title := SanitizeName(t.title, table);
    assert FileName(t, ext, table) == num + title + ext;
    assert FileName(t, "", table) == num + title + "";
    assert num + title + "" == num + title;
  }

  lemma EncodedNameAppends(t: Track, ext: string, table: Transliteration)
    requires '/' !in ext
    ensures GetFilePath(t, "", table) + ext == GetFilePath(t, ext, table)
  {
    FileNameHasNoSlash(t, "", table);
    FileNameAppend(t, ext, table);
    JoinAppend(SanitizeName(t.album, table), FileName(t, "", table), ext);
  }

  // ----- __trackHandle ---------------------------------------------------------

  /** Where `__trackHandle` put the track's file before the record is told. */
  datatype Placement =
    | NotPlaced             // dry run: `syncedFilePath` is left as it was
    | Placed(path: string)  // the value assigned to `syncedFilePath`
    | PlaceFailed(error: Error)
    | StillEncoding         // every run given failed; `encode` is still looping

  /** How `encode` ended, as a placement. */
  function ToPlacement(out: EncodeOutcome): (p: Placement)
    ensures p.Placed? <==> out.Encoded?
    ensures p.Placed? ==> p.path == out.path
  {
    match out
    case Encoded(p) => Placed(p)
    case Crashed(e) => PlaceFailed(e)
    case Retrying => StillEncoding
  }

  /** `encode(...)` for a lossless track, as a placement. */
  function EncodePlacement(t: Track, fs: Fs, setting: EncoderSetting, tmpFile: string,
                           runs: seq<RunOutcome>, table: Transliteration): (r: (Fs, Placement))
    ensures r.1.Placed? ==> r.1.path == GetFilePath(t, "", table) + setting.ext
  {
    var dst := GetFilePath(t, "", table) + setting.ext;
    var enc := Retry(Create(fs, tmpFile), tmpFile, dst, runs);
    EncodedPath(Create(fs, tmpFile), tmpFile, dst, runs);
    (enc.0, ToPlacement(enc.1))
  }

  /** The branch of `__trackHandle` before `record.add`: encode a lossless
      track to `__getFilePath(track)` plus the codec's extension, or copy any
      other track to `__getFilePath(track, ext)` with its own extension. */
  function Place(dryRun: bool, t: Track, fs: Fs, setting: EncoderSetting, tmpFile: string,
                 runs: seq<RunOutcome>, table: Transliteration): (Fs, Placement)
  {
    if dryRun then (fs, NotPlaced)
    else if t.lossless then EncodePlacement(t, fs, setting, tmpFile, runs, table)
    else
      var dst := GetFilePath(t, Ext(t.filePath), table);
      match Copy(fs, t.filePath, dst)
      case Ok(fs1) => (fs1, Placed(dst))
      case Err(e) => (fs, PlaceFailed(e))
  }

  /** How `__trackHandle` ended: with the track recorded, with an exception,
      or still inside `encode`'s retry loop when the given runs ran out. */
  datatype HandleOutcome = Handled(track: Track) | Raised(error: Error) | Encoding

  /** The second half of `__trackHandle`: `record.add(track)`, which needs a
      `syncedFilePath`, then `progress.increase()`, which divides by the
      total. Returns the new record, the new finished count and the outcome. */
  function Commit(t: Track, p: Placement, rec: map<string, string>, finished: nat, total: int)
    : (map<string, string>, nat, HandleOutcome)
  {
    match p
    case PlaceFailed(e) => (rec, finished, Raised(e))
    case StillEncoding => (rec, finished, Encoding)
    case NotPlaced => Recorded(t, t.syncedFilePath, rec, finished, total)
    case Placed(path) => Recorded(t, Some(path), rec, finished, total)
  }

  function Recorded(t: Track, synced: Option<string>, rec: map<string, string>, finished: nat, total: int)
    : (map<string, string>, nat, HandleOutcome)
  {
    match synced
    case None => (rec, finished, Raised(AttributeError))
    case Some(path) =>
      (rec[t.trackID := path], finished + 1,
       if total == 0 then Raised(ZeroDivisionError) else Handled(t.(syncedFilePath := synced)))
  }

  /** In a dry run, a track of the scan (which has no `syncedFilePath`) is
      neither placed nor recorded: `record.add` raises AttributeError and the
      file system, the record and the progress stay as they were. */
  lemma HandleDryRun(t: Track, fs: Fs, setting: EncoderSetting, tmpFile: string, runs: seq<RunOutcome>,
                     table: Transliteration, rec: map<string, string>, finished: nat, total: int)
    requires t.syncedFilePath.None?
    ensures var (fs1, p) := Place(true, t, fs, setting, tmpFile, runs, table);
      fs1 == fs && Commit(t, p, rec, finished, total) == (rec, finished, Raised(AttributeError))
  {
  }

  /** A placed track is recorded once under its ID with the path it was
      placed at, and counted once; nothing else in the record changes. A
      failed placement records and counts nothing. */
  lemma HandleRecordsOnce(t: Track, p: Placement, rec: map<string, string>, finished: nat, total: int)
    ensures var (rec1, fin1, out) := Commit(t, p, rec, finished, total);
      && (p.Placed? ==> rec1 == rec[t.trackID := p.path] && fin1 == finished + 1
                        && Lookup(rec1, t.trackID) == Ok(p.path)
                        && (forall id :: id != t.trackID ==> Lookup(rec1, id) == Lookup(rec, id))
                        && (out.Handled? <==> total != 0)
                        && (out.Handled? ==> out.track.syncedFilePath == Some(p.path)))
      && (p.PlaceFailed? || p.StillEncoding? ==> rec1 == rec && fin1 == finished && !out.Handled?)
  {
  }

  /** A dry run places nothing. */
  lemma PlaceDryRun(t: Track, fs: Fs, setting: EncoderSetting, tmpFile: string, runs: seq<RunOutcome>, table: Transliteration)
    ensures Place(true, t, fs, setting, tmpFile, runs, table) == (fs, NotPlaced)
  {
  }

  /** A lossy track is copied under the sanitized album directory, named by its
      number and sanitized title with its own extension; the copy succeeds
      exactly when the source is a file and the target directory exists, and
      otherwise nothing changes. */
  lemma PlaceCopy(t: Track, fs: Fs, setting: EncoderSetting, tmpFile: string, runs: seq<RunOutcome>, table: Transliteration)
    requires !t.lossless
    ensures var dst := GetFilePath(t, Ext(t.filePath), table);
      var (fs1, p) := Place(false, t, fs, setting, tmpFile, runs, table);
      && (p == Placed(dst) <==> IsFile(fs, t.filePath) && ParentExists(fs, Target(fs, t.filePath, dst)))
      && (p != Placed(dst) ==> p == PlaceFailed(FileNotFoundError) && fs1 == fs)
      && (p.Placed? ==> IsFile(fs1, Target(fs, t.filePath, dst)))
      && Split(dst) == (SanitizeName(t.album, table), FileName(t, Ext(t.filePath), table))
  {
    ExtHasNoSlash(t.filePath);
    GetFilePathParts(t, Ext(t.filePath), table);
  }

  /** A lossless track that the encoder finishes is placed under the same name
      as a copy would be, with the codec's extension. */
  lemma PlaceEncoded(t: Track, fs: Fs, setting: EncoderSetting, tmpFile: string, runs: seq<RunOutcome>, table: Transliteration)
    requires t.lossless && '/' !in setting.ext
    requires Place(false, t, fs, setting, tmpFile, runs, table).1.Placed?
    ensures var dst := Place(false, t, fs, setting, tmpFile, runs, table).1.path;
      dst == GetFilePath(t, setting.ext, table)
      && Split(dst) == (SanitizeName(t.album, table), FileName(t, setting.ext, table))
  {
    EncodedNameAppends(t, setting.ext, table);
    GetFilePathParts(t, setting.ext, table);
  }

  // ----- the scan of folderTraversal -------------------------------------------

  /** An album as the scan sees it. */
  datatype AlbumValue = AlbumValue(tracks: seq<Track>, coverFile: Option<string>)

  /** What the scan reads but does not change. `check` is the filter's verdict
      and `recorded` the keys of the record. */
  datatype Env = Env(
    tags: string -> Option<Metadata>,
    check: Metadata -> bool,
    recorded: set<string>,
    md5: Hash,
    fs: Fs)

  /** The engine's class-level collections, the local count, and the album of
      the last track appended in the current directory (`albumName` when
      `hasMusic` holds). */
  datatype ScanState = ScanState(albums: map<string, AlbumValue>, ids: set<string>, count: nat, last: Option<string>)

  predicate LastKnown(st: ScanState) {
    st.last.Some? ==> st.last.value in st.albums
  }

  /** A track goes into an album when the filter passes and the record does
      not already hold it. */
  predicate Accepted(env: Env, m: Metadata) {
    env.check(m) && GenId(m, env.md5) !in env.recorded
  }

  function TracksOf(albums: map<string, AlbumValue>, name: string): seq<Track> {
    if name in albums then albums[name].tracks else []
  }

  /** The track a file contributes: one when its tags read and it is
      accepted, none otherwise. */
  function AcceptedOne(env: Env, path: string): (r: seq<Track>)
    ensures |r| <= 1
  {
    match env.tags(path)
    case Some(m) => if Accepted(env, m) then [NewTrack(m, path, env.md5)] else []
    case None => []
  }

  /** The fingerprint a file contributes: one when its tags read. */
  function ReadOne(env: Env, path: string): set<string> {
    match env.tags(path)
    case Some(m) => {GenId(m, env.md5)}
    case None => {}
  }

  /** The body of the inner loop for one file. */
  function ScanFile(env: Env, root: string, f: string, st: ScanState): (r: ScanState)
    ensures LastKnown(st) ==> LastKnown(r)
  {
    var path := Join(root, f);
    match env.tags(path)
    case None => st
    case Some(m) =>
      var ids := st.ids + {GenId(m, env.md5)};
      if Accepted(env, m) then
        var name := Str(m.album);
        var album := if name in st.albums then st.albums[name] else AlbumValue([], None);
        ScanState(st.albums[name := album.(tracks := album.tracks + [NewTrack(m, path, env.md5)])], ids, st.count + 1, Some(name))
      else st.(ids := ids)
  }

  /** The inner loop over the first files of a directory. */
  function ScanFiles(env: Env, root: string, files: seq<string>, st: ScanState): (r: ScanState)
    ensures LastKnown(st) ==> LastKnown(r)
  {
    if files == [] then st
    else ScanFile(env, root, files[|files| - 1], ScanFiles(env, root, files[..|files| - 1], st))
  }

  /** One directory of the walk: its files, then the cover for the album of
      its last appended track. */
  datatype WalkEntry = WalkEntry(root: string, files: seq<string>)

  function ScanDir(env: Env, e: WalkEntry, st: ScanState): (r: ScanState)
    ensures r.last.Some? ==> r.last.value in r.albums
  {
    var s := ScanFiles(env, e.root, e.files, st.(last := None));
    match s.last
    case None => s
    case Some(name) => s.(albums := s.albums[name := s.albums[name].(coverFile := DetectCoverFile(env.fs, e.root))])
  }

  /** The outer loop over the first directories of the walk. */
  function ScanWalk(env: Env, walk: seq<WalkEntry>, st: ScanState): ScanState {
    if walk == [] then st else ScanDir(env, walk[|walk| - 1], ScanWalk(env, walk[..|walk| - 1], st))
  }

  /** One more file of a directory's loop. */
  lemma ScanFilesPrefix(env: Env, root: string, files: seq<string>, j: nat, st: ScanState)
    requires j < |files|
    ensures ScanFiles(env, root, files[..j + 1], st) == ScanFile(env, root, files[j], ScanFiles(env, root, files[..j], st))
  {
    assert files[..j + 1][..j] == files[..j];
  }

  /** One more directory of the walk. */
  lemma ScanWalkPrefix(env: Env, walk: seq<WalkEntry>, i: nat, st: ScanState)
    requires i < |walk|
    ensures ScanWalk(env, walk[..i + 1], st) == ScanDir(env, walk[i], ScanWalk(env, walk[..i], st))
  {
    assert walk[..i + 1][..i] == walk[..i];
  }

  // A reference description of the scan, file by file.

  /** The tracks of the readable, accepted files, in walk order. */
  function AcceptedTracks(env: Env, root: string, files: seq<string>): seq<Track> {
    if files == [] then []
    else AcceptedTracks(env, root, files[..|files| - 1]) + AcceptedOne(env, Join(root, files[|files| - 1]))
  }

  /** The fingerprints of the readable files, accepted or not. */
  function ReadIds(env: Env, root: string, files: seq<string>): set<string> {
    if files == [] then {}
    else ReadIds(env, root, files[..|files| - 1]) + ReadOne(env, Join(root, files[|files| - 1]))
  }

  /** The tracks of one album, in order. */
  function OfAlbum(ts: seq<Track>, name: string): seq<Track> {
    if ts == [] then []
    else OfAlbum(ts[..|ts| - 1], name) + (if ts[|ts| - 1].album == name then [ts[|ts| - 1]] else [])
  }

  lemma {:induction false} OfAlbumAppend(a: seq<Track>, b: seq<Track>, name: string)
    ensures OfAlbum(a + b, name) == OfAlbum(a, name) + OfAlbum(b, name)
  {
    if b == [] {
      assert a + b == a;
    } else {
      assert (a + b)[..|a + b| - 1] == a + b[..|b| - 1];
      assert (a + b)[|a + b| - 1] == b[|b| - 1];
      OfAlbumAppend(a, b[..|b| - 1], name);
    }
  }

  lemma ScanFileCounts(env: Env, root: string, f: string, st: ScanState)
    ensures var r := ScanFile(env, root, f, st);
      var a := AcceptedOne(env, Join(root, f));
      && r.ids == st.ids + ReadOne(env, Join(root, f))
      && r.count == st.count + |a|
      && (a == [] ==> r.last == st.last)
      && (a != [] ==> r.last == Some(a[0].album))
  {
  }

  lemma ScanFileAlbums(env: Env, root: string, f: string, st: ScanState)
    ensures var r := ScanFile(env, root, f, st);
      var a := AcceptedOne(env, Join(root, f));
      && (forall name :: TracksOf(r.albums, name) == TracksOf(st.albums, name) + OfAlbum(a, name))
      && (forall name :: name in r.albums <==> name in st.albums || OfAlbum(a, name) != [])
      && (forall name :: name in st.albums ==> r.albums[name].coverFile == st.albums[name].coverFile)
      && (forall name :: name in r.albums && name !in st.albums ==> r.albums[name].coverFile == None)
  {
    var a := AcceptedOne(env, Join(root, f));
    if a != [] {
      assert a == [a[0]] && a[..0] == [];
    }
  }

  /** The effect of one file on the engine's collections. */
  lemma ScanFileStep(env: Env, root: string, f: string, st: ScanState)
    ensures var r := ScanFile(env, root, f, st);
      var a := AcceptedOne(env, Join(root, f));
      && r.ids == st.ids + ReadOne(env, Join(root, f))
      && r.count == st.count + |a|
      && (forall name :: TracksOf(r.albums, name) == TracksOf(st.albums, name) + OfAlbum(a, name))
      && (forall name :: name in r.albums <==> name in st.albums || OfAlbum(a, name) != [])
      && (forall name :: name in st.albums ==> r.albums[name].coverFile == st.albums[name].coverFile)
      && (forall name :: name in r.albums && name !in st.albums ==> r.albums[name].coverFile == None)
      && (a == [] ==> r.last == st.last)
      && (a != [] ==> r.last == Some(a[0].album))
  {
    ScanFileCounts(env, root, f, st);
    ScanFileAlbums(env, root, f, st);
  }

  lemma {:induction false} ScanFilesIds(env: Env, root: string, files: seq<string>, st: ScanState)
    ensures ScanFiles(env, root, files, st).ids == st.ids + ReadIds(env, root, files)
    ensures ScanFiles(env, root, files, st).count == st.count + |AcceptedTracks(env, root, files)|
  {
    if files != [] {
      ScanFilesIds(env, root, files[..|files| - 1], st);
      ScanFileStep(env, root, files[|files| - 1], ScanFiles(env, root, files[..|files| - 1], st));
    }
  }

  lemma {:induction false} ScanFilesTracks(env: Env, root: string, files: seq<string>, st: ScanState)
    ensures forall name :: TracksOf(ScanFiles(env, root, files, st).albums, name)
                           == TracksOf(st.albums, name) + OfAlbum(AcceptedTracks(env, root, files), name)
  {
    forall name ensures TracksOf(ScanFiles(env, root, files, st).albums, name)
                        == TracksOf(st.albums, name) + OfAlbum(AcceptedTracks(env, root, files), name) {
      ScanFilesTracksOf(env, root, files, st, name);
    }
  }

  /** `ScanFilesTracks` for one album name. */
  lemma {:induction false} ScanFilesTracksOf(env: Env, root: string, files: seq<string>, st: ScanState, name: string)
    ensures TracksOf(ScanFiles(env, root, files, st).albums, name)
            == TracksOf(st.albums, name) + OfAlbum(AcceptedTracks(env, root, files), name)
  {
    if files == [] {
      assert TracksOf(st.albums, name) + [] == TracksOf(st.albums, name);
    } else {
      var init := files[..|files| - 1];
      var path := Join(root, files[|files| - 1]);
      ScanFilesTracksOf(env, root, init, st, name);
      ScanFileStep(env, root, files[|files| - 1], ScanFiles(env, root, init, st));
      OfAlbumAppend(AcceptedTracks(env, root, init), AcceptedOne(env, path), name);
      ConcatAssoc(TracksOf(st.albums, name), OfAlbum(AcceptedTracks(env, root, init), name),
                  OfAlbum(AcceptedOne(env, path), name));
    }
  }

  lemma {:induction false} ScanFilesKeys(env: Env, root: string, files: seq<string>, st: ScanState)
    ensures forall name :: name in ScanFiles(env, root, files, st).albums
                           <==> name in st.albums || OfAlbum(AcceptedTracks(env, root, files), name) != []
  {
    if files != [] {
      var init := files[..|files| - 1];
      var path := Join(root, files[|files| - 1]);
      ScanFilesKeys(env, root, init, st);
      ScanFileStep(env, root, files[|files| - 1], ScanFiles(env, root, init, st));
      forall name ensures OfAlbum(AcceptedTracks(env, root, files), name)
                          == OfAlbum(AcceptedTracks(env, root, init), name) + OfAlbum(AcceptedOne(env, path), name) {
        OfAlbumAppend(AcceptedTracks(env, root, init), AcceptedOne(env, path), name);
      }
    }
  }

  lemma {:induction false} ScanFilesCovers(env: Env, root: string, files: seq<string>, st: ScanState)
    ensures var r := ScanFiles(env, root, files, st);
      && st.albums.Keys <= r.albums.Keys
      && (forall name :: name in st.albums ==> r.albums[name].coverFile == st.albums[name].coverFile)
      && (forall name :: name in r.albums && name !in st.albums ==> r.albums[name].coverFile == None)
  {
    if files != [] {
      ScanFilesCovers(env, root, files[..|files| - 1], st);
      ScanFileStep(env, root, files[|files| - 1], ScanFiles(env, root, files[..|files| - 1], st));
    }
  }

  lemma {:induction false} ScanFilesLast(env: Env, root: string, files: seq<string>, st: ScanState)
    ensures var acc := AcceptedTracks(env, root, files);
      && (acc == [] ==> ScanFiles(env, root, files, st).last == st.last)
      && (acc != [] ==> ScanFiles(env, root, files, st).last == Some(acc[|acc| - 1].album))
  {
    if files != [] {
      var pre := files[..|files| - 1];
      var f := files[|files| - 1];
      ScanFilesLast(env, root, pre, st);
      ScanFileLast(env, root, f, ScanFiles(env, root, pre, st));
      var a := AcceptedOne(env, Join(root, f));
      var acc := AcceptedTracks(env, root, files);
      assert acc == AcceptedTracks(env, root, pre) + a;
      if a != [] {
        assert acc[|acc| - 1] == a[0];
      }
    }
  }

  /** One file sets the last album exactly when it is accepted. */
  lemma ScanFileLast(env: Env, root: string, f: string, st: ScanState)
    ensures var a := AcceptedOne(env, Join(root, f));
      && (a == [] ==> ScanFile(env, root, f, st).last == st.last)
      && (a != [] ==> ScanFile(env, root, f, st).last == Some(a[0].album))
  {
  }

  /** Over the files of a directory: every readable file's fingerprint joins
      the ID set; each accepted file's track is appended, in order, to the
      album named after `str(album)`, which exists afterwards; the count grows
      by the number of accepted files; covers are untouched; and the directory
      has music exactly when some file was accepted, the last one naming the
      album. */
  lemma ScanFilesSpec(env: Env, root: string, files: seq<string>, st: ScanState)
    ensures var r := ScanFiles(env, root, files, st);
      var acc := AcceptedTracks(env, root, files);
      && r.ids == st.ids + ReadIds(env, root, files)
      && r.count == st.count + |acc|
      && (forall name :: TracksOf(r.albums, name) == TracksOf(st.albums, name) + OfAlbum(acc, name))
      && (forall name :: name in r.albums <==> name in st.albums || OfAlbum(acc, name) != [])
      && (forall name :: name in st.albums ==> r.albums[name].coverFile == st.albums[name].coverFile)
      && (forall name :: name in r.albums && name !in st.albums ==> r.albums[name].coverFile == None)
      && (acc == [] ==> r.last == st.last)
      && (acc != [] ==> r.last == Some(acc[|acc| - 1].album))
  {
    ScanFilesIds(env, root, files, st);
    ScanFilesTracks(env, root, files, st);
    ScanFilesKeys(env, root, files, st);
    ScanFilesCovers(env, root, files, st);
    ScanFilesLast(env, root, files, st);
  }

  /** After one directory: the same as for its files, and the album of the
      last accepted file (if any) gets the directory's cover; every other
      album keeps its cover. */
  lemma ScanDirSpec(env: Env, e: WalkEntry, st: ScanState)
    ensures var r := ScanDir(env, e, st);
      var acc := AcceptedTracks(env, e.root, e.files);
      && r.ids == st.ids + ReadIds(env, e.root, e.files)
      && r.count == st.count + |acc|
      && (forall name :: TracksOf(r.albums, name) == TracksOf(st.albums, name) + OfAlbum(acc, name))
      && st.albums.Keys <= r.albums.Keys
      && (acc != [] ==> acc[|acc| - 1].album in r.albums)
    ensures var r := ScanDir(env, e, st);
      var acc := AcceptedTracks(env, e.root, e.files);
      && (acc != [] ==> r.albums[acc[|acc| - 1].album].coverFile == DetectCoverFile(env.fs, e.root))
      && (forall name :: name in st.albums && (acc == [] || name != acc[|acc| - 1].album) ==>
            r.albums[name].coverFile == st.albums[name].coverFile)
      && (acc == [] ==> r.albums == st.albums)
  {
    var st0 := st.(last := None);
    ScanFilesSpec(env, e.root, e.files, st0);
    var s := ScanFiles(env, e.root, e.files, st0);
    var acc := AcceptedTracks(env, e.root, e.files);
    if acc == [] {
      assert forall name :: OfAlbum(acc, name) == [];
      assert s.albums.Keys == st.albums.Keys;
      forall name | name in st.albums ensures s.albums[name] == st.albums[name] {
        assert TracksOf(s.albums, name) == TracksOf(st.albums, name);
      }
      assert s.albums == st.albums;
    }
  }

  function AcceptedInWalk(env: Env, walk: seq<WalkEntry>): seq<Track> {
    if walk == [] then []
    else AcceptedInWalk(env, walk[..|walk| - 1]) + AcceptedTracks(env, walk[|walk| - 1].root, walk[|walk| - 1].files)
  }

  function ReadIdsInWalk(env: Env, walk: seq<WalkEntry>): set<string> {
    if walk == [] then {}
    else ReadIdsInWalk(env, walk[..|walk| - 1]) + ReadIds(env, walk[|walk| - 1].root, walk[|walk| - 1].files)
  }

  /** Over the whole walk: the IDs of all readable files are added and the
      count is the number of accepted files of this walk alone. */
  lemma {:induction false} ScanWalkCounts(env: Env, walk: seq<WalkEntry>, st: ScanState)
    ensures ScanWalk(env, walk, st).ids == st.ids + ReadIdsInWalk(env, walk)
    ensures ScanWalk(env, walk, st).count == st.count + |AcceptedInWalk(env, walk)|
  {
    if walk != [] {
      var init := walk[..|walk| - 1];
      ScanWalkCounts(env, init, st);
      ScanDirSpec(env, walk[|walk| - 1], ScanWalk(env, init, st));
    }
  }

  /** Over the whole walk, the accepted tracks are appended album by album in
      walk order. */
  lemma {:induction false} ScanWalkTracks(env: Env, walk: seq<WalkEntry>, st: ScanState)
    ensures forall name :: TracksOf(ScanWalk(env, walk, st).albums, name)
                           == TracksOf(st.albums, name) + OfAlbum(AcceptedInWalk(env, walk), name)
  {
    forall name
      ensures TracksOf(ScanWalk(env, walk, st).albums, name)
              == TracksOf(st.albums, name) + OfAlbum(AcceptedInWalk(env, walk), name)
    {
      ScanWalkTracksOf(env, walk, st, name);
    }
  }

  lemma {:induction false} ScanWalkTracksOf(env: Env, walk: seq<WalkEntry>, st: ScanState, name: string)
    ensures TracksOf(ScanWalk(env, walk, st).albums, name)
            == TracksOf(st.albums, name) + OfAlbum(AcceptedInWalk(env, walk), name)
  {
    if walk == [] {
      assert TracksOf(st.albums, name) + [] == TracksOf(st.albums, name);
    } else {
      var init := walk[..|walk| - 1];
      var e := walk[|walk| - 1];
      var prev := ScanWalk(env, init, st);
      var acc := AcceptedTracks(env, e.root, e.files);
      ScanWalkTracksOf(env, init, st, name);
      ScanDirTracks(env, e, prev, name);
      OfAlbumAppend(AcceptedInWalk(env, init), acc, name);
      ConcatAssoc(TracksOf(st.albums, name), OfAlbum(AcceptedInWalk(env, init), name), OfAlbum(acc, name));
    }
  }

  lemma ScanDirTracks(env: Env, e: WalkEntry, st: ScanState, name: string)
    ensures TracksOf(ScanDir(env, e, st).albums, name)
            == TracksOf(st.albums, name) + OfAlbum(AcceptedTracks(env, e.root, e.files), name)
  {
    ScanDirSpec(env, e, st);
  }

  lemma ConcatAssoc(a: seq<Track>, b: seq<Track>, c: seq<Track>)
    ensures (a + b) + c == a + (b + c)
  {
  }

  /** A file the tag reader cannot read leaves no trace; a readable one always
      adds its fingerprint, even when the filter or the record rejects it. */
  lemma ScanFileEffects(env: Env, root: string, f: string, st: ScanState)
    ensures env.tags(Join(root, f)).None? ==> ScanFile(env, root, f, st) == st
    ensures env.tags(Join(root, f)).Some? ==>
      ScanFile(env, root, f, st).ids == st.ids + {GenId(env.tags(Join(root, f)).value, env.md5)}
    ensures env.tags(Join(root, f)).Some? && !Accepted(env, env.tags(Join(root, f)).value) ==>
      ScanFile(env, root, f, st).albums == st.albums && ScanFile(env, root, f, st).count == st.count
  {
  }

  // ----- prune -------------------------------------------------------------

  /** `possibleCoverNames` of `prune`. */
  const CoverNameSet: set<string> :=
    {"cover_override.jpg", "cover.png", "cover.jpg", "folder.jpg", "Cover.jpg", "folder.jpeg", "cover.jpeg"}

  /** The record and the file system between steps of `prune`, and whether
      an exception has ended it. */
  datatype PruneState = PruneState(record: map<string, string>, fs: Fs, outcome: Result<()>)

  /** One stale track: delete its file, then the directory if only cover
      images (or nothing) remain in it, then the record entry. */
  function PruneOne(st: PruneState, id: string): (r: PruneState)
    requires st.outcome.Ok?
  {
    match Lookup(st.record, id)
    case Err(e) => st.(outcome := Err(e))
    case Ok(path) =>
      match Remove(st.fs, path)
      case Err(e) => st.(outcome := Err(e))
      case Ok(fs1) =>
        var dir := DirName(st.record[id]);
        match ListDir(fs1, dir)
        case Err(e) => PruneState(st.record, fs1, Err(e))
        case Ok(names) =>
          var fs2 := if names - CoverNameSet == {} then RmTree(fs1, dir).value else fs1;
          PruneState(st.record - {id}, fs2, Ok(()))
  }

  /** The loop of `prune` over the first IDs of `order`; IDs in `keep` (the
      `trackIDList`) are skipped. */
  function PruneLoop(order: seq<string>, keep: set<string>, start: PruneState): PruneState {
    if order == [] then start
    else
      var prev := PruneLoop(order[..|order| - 1], keep, start);
      var id := order[|order| - 1];
      if prev.outcome.Err? || id in keep then prev else PruneOne(prev, id)
  }

  /** One more ID of the loop. */
  lemma PruneLoopStep(order: seq<string>, i: nat, keep: set<string>, start: PruneState)
    requires i < |order|
    ensures var prev := PruneLoop(order[..i], keep, start);
      PruneLoop(order[..i + 1], keep, start)
      == if prev.outcome.Err? || order[i] in keep then prev else PruneOne(prev, order[i])
  {
    assert order[..i + 1][..i] == order[..i];
  }

  /** Nothing is pruned when every ID is still in the library. */
  lemma {:induction false} PruneNothingStale(order: seq<string>, keep: set<string>, start: PruneState)
    requires forall i :: 0 <= i < |order| ==> order[i] in keep
    ensures PruneLoop(order, keep, start) == start
  {
    if order != [] {
      PruneNothingStale(order[..|order| - 1], keep, start);
    }
  }

  /** Prune only deletes. */
  lemma {:induction false} PruneOnlyDeletes(order: seq<string>, keep: set<string>, start: PruneState)
    ensures var r := PruneLoop(order, keep, start);
      r.fs.files <= start.fs.files && r.fs.dirs <= start.fs.dirs && r.record.Keys <= start.record.Keys
  {
    if order != [] {
      PruneOnlyDeletes(order[..|order| - 1], keep, start);
      var prev := PruneLoop(order[..|order| - 1], keep, start);
      var id := order[|order| - 1];
      if prev.outcome.Ok? && id !in keep && Lookup(prev.record, id).Ok? && Remove(prev.fs, prev.record[id]).Ok? {
        var fs1 := Remove(prev.fs, prev.record[id]).value;
        var dir := DirName(prev.record[id]);
        if ListDir(fs1, dir).Ok? && ListDir(fs1, dir).value - CoverNameSet == {} {
          var fs2 := RmTree(fs1, dir).value;
          assert forall p :: p in fs2.files ==> p in fs1.files;
          assert forall p :: p in fs2.dirs ==> p in fs1.dirs;
        }
      }
    }
  }

  /** A successful step drops exactly its entry, deletes its file and
      creates nothing. */
  lemma PruneOneOk(st: PruneState, id: string)
    requires st.outcome.Ok? && PruneOne(st, id).outcome.Ok?
    ensures var r := PruneOne(st, id);
      && id in st.record && r.record == st.record - {id}
      && r.fs.files <= st.fs.files && !IsFile(r.fs, st.record[id])
  {
    var fs1 := Remove(st.fs, st.record[id]).value;
    var dir := DirName(st.record[id]);
    if ListDir(fs1, dir).value - CoverNameSet == {} {
      var fs2 := RmTree(fs1, dir).value;
      assert forall p :: p in fs2.files ==> p in fs1.files;
    }
  }

  /** When prune runs over distinct IDs of the record and ends without an
      exception: the record keeps exactly the entries that were not visited or
      are in `keep`, with their paths, and every pruned entry's file is gone. */
  lemma {:induction false} PruneResult(order: seq<string>, keep: set<string>, start: PruneState)
    requires start.outcome.Ok?
    requires forall i, j :: 0 <= i < j < |order| ==> order[i] != order[j]
    requires forall i :: 0 <= i < |order| ==> order[i] in start.record
    ensures var r := PruneLoop(order, keep, start);
      r.outcome.Ok? ==>
        && (forall id :: id in r.record <==> id in start.record && (id in keep || id !in order))
        && (forall id :: id in r.record ==> r.record[id] == start.record[id])
        && (forall id :: id in order && id !in keep ==> !IsFile(r.fs, start.record[id]))
  {
    if order != [] {
      var init := order[..|order| - 1];
      var id := order[|order| - 1];
      assert forall i, j :: 0 <= i < j < |init| ==> init[i] != init[j];
      PruneResult(init, keep, start);
      var prev := PruneLoop(init, keep, start);
      assert forall x :: x in order <==> x in init || x == id;
      if prev.outcome.Ok? && id !in keep {
        assert id !in init;
        var r := PruneOne(prev, id);
        if r.outcome.Ok? {
          PruneOneOk(prev, id);
        }
      }
    }
  }

  /** One pruned track whose directory then holds only cover images (or
      nothing): that directory and everything in it is removed too. When
      something else remains, only the track's file is deleted. */
  lemma PruneOneDirectory(st: PruneState, id: string)
    requires st.outcome.Ok? && id in st.record && IsFile(st.fs, st.record[id])
    requires DirName(st.record[id]) in st.fs.dirs
    ensures var r := PruneOne(st, id);
      var fs1 := Remove(st.fs, st.record[id]).value;
      var dir := DirName(st.record[id]);
      && r.outcome.Ok? && r.record == st.record - {id}
      && (ListDir(fs1, dir).value - CoverNameSet == {} ==> r.fs == RmTree(fs1, dir).value && !IsDir(r.fs, dir))
      && (ListDir(fs1, dir).value - CoverNameSet != {} ==> r.fs == fs1)
  {
    var fs1 := Remove(st.fs, st.record[id]).value;
    assert fs1.dirs == st.fs.dirs;
    var dir := DirName(st.record[id]);
    if ListDir(fs1, dir).value - CoverNameSet == {} {
      assert Under(dir, dir);
    }
  }

  /** A synced file whose directory part is empty (a track of an album whose
      sanitized name is empty) ends prune with FileNotFoundError from
      `os.listdir("")`, after the file has been deleted. */
  lemma PruneTopLevelFileRaises(st: PruneState, id: string)
    requires st.outcome.Ok? && id in st.record && IsFile(st.fs, st.record[id])
    requires DirName(st.record[id]) == ""
    requires "" !in st.fs.dirs
    ensures PruneOne(st, id) == PruneState(st.record, Remove(st.fs, st.record[id]).value, Err(FileNotFoundError))
  {
  }
}
