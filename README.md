# pyMusicSync in Dafny

A model of pyMusicSync, a tool that syncs a music library to a portable
player. It scans a source tree, reads each audio file's tags, and picks the
tracks that pass the configured filter and are not yet in the record. Lossless
tracks (FLAC, WMA) are converted with ffmpeg; the others are copied. Each
synced track goes into a JSON record keyed by a fingerprint of its tags.
Pruning then deletes synced files whose source track is gone, along with
album folders that only cover images are left in.

The project has two generations of the engine:

- the `pyMusicSync/` package, which is current;
- the older root scripts (`sync.py`, `objects.py`, `utils.py`).

Foreign code appears only as parameters:

- the MD5 digest (`Utils.Hash`);
- `unidecode`'s transliteration table (`Utils.Transliteration`);
- `random.choice` (`Utils.RandomSource`);
- TinyTag's tag reader (`string -> Option<Metadata>`);
- the configuration's filter verdict;
- the regular-expression engine (`Filter.RegexEngine`);
- the outcome of each ffmpeg run (`Encoder.RunOutcome`);
- the output of `ffmpeg -codecs`.

The file system is an explicit value (`FileSystem.Fs`: a set of files and a
set of directories). Each operation takes it and returns it.

Modules:

- `Wrappers`: `Option`, `Result` and the Python exceptions modelled.
- `Text`: the `str` built-ins the code uses: `strip`, `replace`, `int()`,
  `str(int)`, `{:x}`, `{:02d}`, `{:.3f}` and `<=` on strings.
- `Paths`: `os.path.join`, `split` and `splitext`.
- `FileSystem`: `os.remove`, `os.listdir`, `shutil.rmtree`, `copy` and
  `move`.
- `Tags`: the tag record and its key string.
- `Utils`: `pyMusicSync/utils.py`.
- `LegacyUtils`: `utils.py`.
- `Tracks`, `Albums`, `ProgressTracker`, `RecordStore`: the objects of the
  package.
- `Encoder`: `pyMusicSync/encoder.py`.
- `CoverArt`: `pyMusicSync/cover_art.py`.
- `Filter`: `pyMusicSync/filter.py`.
- `SyncSpec`: value-level specifications of the package engine's scan,
  placement and prune.
- `Sync`: the `musicSync` class of `pyMusicSync/sync.py`, proved against
  `SyncSpec`.
- `LegacyObjects`: `objects.py`.
- `LegacySync`: the older `musicSync` of `sync.py`.

Objects whose fields the code updates in place are classes:

- `Sync.MusicSync`, `LegacySync.LegacyMusicSync`;
- `Albums.Album`, `LegacyObjects.LegacyAlbum`;
- `ProgressTracker.Progress`;
- `RecordStore.Record`, `LegacyObjects.ListRecord`;
- `Filter.Filter` and `Filter.RuleRegistry`.

Each loop is a method with invariants, proved equal to a specification
function:

- the folder walk;
- the prune loop;
- ffmpeg's retry loop;
- the `toDict` and option loops;
- the filter's rule loop;
- the escaping loop of `pathSanitize`.

The track fingerprint is the MD5 of `"{album}:{title}:{duration:.3f}"`. It is
sometimes described as a three-decimal truncation of the duration. The code
formats with `.3f`, which rounds, and the model follows the code: 123.4567 s
and 123.4561 s print as `123.457` and `123.456` and get different keys
(`Tags.KeyRoundsDuration`).

## Model

| member | source | states |
|---|---|---|
| Tags.KeySeparatesDurations | pyMusicSync/utils.py:37-39 | for the same album and title, two keys are equal exactly when the durations round to the same thousandths |
| Tags.KeyRoundsDuration | pyMusicSync/utils.py:38 | `.3f` rounds: 123.4567 and 123.4561 print as "123.457" and "123.456" and their keys differ |
| Tags.KeyIgnoresFieldBoundaries | pyMusicSync/utils.py:38 | the `:` separator is not escaped, so album "a:b" + title "c" and album "a" + title "b:c" collide |
| Tags.Key | pyMusicSync/utils.py:38 | the key string: album, title and the `.3f` duration joined by `:`, a missing tag printed as "None"; no contract of its own, Tags.KeySeparatesDurations and Tags.KeyIgnoresFieldBoundaries state what it tells apart |
| Text.Strip | pyMusicSync/utils.py:28-33 | the first and last characters of a stripped string are not stripped characters; the `lstrip` (a suffix) and `rstrip` (a prefix) contracts make it a contiguous part of the input |
| Text.StripSubset | pyMusicSync/utils.py:28-33 | every character of a stripped string occurs in the original, so stripping introduces nothing new |
| Text.StripKeepsInfixAt | pyMusicSync/utils.py:28-33 | `strip` removes characters only at the ends: a contiguous piece of the string that starts and ends with a character that is not stripped is still a contiguous piece of the result |
| Text.IsSpace | pyMusicSync/utils.py:28 | the characters `str.isspace` accepts, which `strip()` removes; no contract of its own, Utils.PathSanitize states that no sanitized name starts or ends with one |
| Text.FormatFixed3Injective | pyMusicSync/utils.py:38 | two durations print the same with `.3f` exactly when they round to the same thousandths |
| Text.FormatFixed3 | pyMusicSync/utils.py:38 | `"{:.3f}"` of a duration; no contract of its own, Text.FormatFixed3Injective and Tags.KeyRoundsDuration state how it rounds |
| Text.ParseIntChars | pyMusicSync/objects/track.py:19-22 | `int()` accepts only whitespace, a sign, digits and underscores |
| Text.ParseIntOfIntToString | pyMusicSync/objects/track.py:19-22 | `int(str(i)) == i` for every integer |
| Text.ParseInt | pyMusicSync/objects/track.py:20 | `int(s)`, `None` for ValueError; no contract of its own, Text.ParseIntChars and Text.ParseIntOfIntToString state what it accepts and that it inverts `str` |
| Text.DeleteChar | utils.py:25 | `replace(c, "")` leaves no `c` and adds no character |
| Paths.SplitExtParts | pyMusicSync/objects/track.py:16 | `splitext` splits the path into stem + extension; the extension is empty or a dot followed by neither dot nor slash |
| Paths.ExtIs | pyMusicSync/objects/track.py:16-17 | the extension is `e` exactly when the path ends in `e` after a named stem |
| Paths.ExtOfAppended | pyMusicSync/objects/track.py:16-17 | a named stem followed by a valid extension has that extension |
| Paths.SplitJoin | pyMusicSync/sync.py:100 | `split(join(d, n)) == (d, n)` for a name without slash and a directory without a trailing slash |
| Paths.Join | pyMusicSync/sync.py:119 | `os.path.join`; no contract of its own, Paths.SplitJoin states that `split` inverts it |
| Paths.Split | pyMusicSync/sync.py:100 | `os.path.split`; no contract of its own, Paths.SplitJoin states that it inverts `join` |
| Paths.SplitExt | pyMusicSync/objects/track.py:16 | `os.path.splitext`; no contract of its own, Paths.SplitExtParts and Paths.ExtIs state its parts |
| FileSystem.Remove | pyMusicSync/sync.py:99 | `os.remove` deletes exactly the file, and raises FileNotFoundError when it is not a file |
| FileSystem.ListDir | pyMusicSync/sync.py:101 | `os.listdir(d)` succeeds exactly when `d` is a directory, and then lists the base name of every file and directory directly inside it and no other name; otherwise FileNotFoundError (also for the empty path) |
| FileSystem.RmTree | pyMusicSync/sync.py:103 | `rmtree` removes everything under the directory and nothing else, and raises when there is no such directory |
| FileSystem.Copy | pyMusicSync/sync.py:71 | `shutil.copy` adds the target (into a directory target under the source's name); it needs an existing source and parent |
| FileSystem.Move | pyMusicSync/encoder.py:76 | `shutil.move` puts the target in place, removes the source, and leaves other files alone |
| FileSystem.Create | pyMusicSync/encoder.py:50 | `mkstemp` creates the file and changes nothing else |
| Utils.UnidecodeAscii | pyMusicSync/utils.py:21 | `unidecode` leaves an ASCII string unchanged |
| Utils.Unidecode | pyMusicSync/utils.py:21 | `unidecode.unidecode` as a per-character table; no contract of its own, Utils.UnidecodeAscii states that ASCII passes through |
| Utils.GenRandomString | pyMusicSync/utils.py:10-12 | the result has the requested length, with every character drawn from the charset; an empty charset raises for a non-zero length |
| Utils.PlaceholderCharsLegal | pyMusicSync/utils.py:23-25 | the characters of a `_x{:x}_` placeholder are not illegal |
| Utils.Escape | pyMusicSync/utils.py:25 | the placeholder of a character consists only of placeholder characters |
| Utils.EscapeExamples | pyMusicSync/utils.py:23-25 | `/`, tab, NUL, `)` and `\` become `_x2f_`, `_x9_`, `_x0_`, `_x29_` and `_x5c_` |
| Utils.EscapeNone | pyMusicSync/utils.py:24-25 | replacing the characters of an empty list leaves the name unchanged |
| Utils.EscapeStep | pyMusicSync/utils.py:24-25 | one loop step: replacing the next illegal character extends the escaping by that character |
| Utils.EscapeAllLegal | pyMusicSync/utils.py:23-25 | after the replace loop no illegal character is left |
| Utils.EscapeAllUnchanged | pyMusicSync/utils.py:23-25 | a name without illegal characters goes through the replace loop unchanged |
| Utils.EscapeIllegal | pyMusicSync/utils.py:23-25 | the replace loop over the illegal characters computes `EscapeAll` |
| Utils.SanitizeNameLegal | pyMusicSync/utils.py:15-34 | a sanitized name holds no illegal character |
| Utils.PathSanitize | pyMusicSync/utils.py:15-34 | `None` gives five hex characters; a name gives `SanitizeName`; the result has no illegal character and no space at either end |
| Utils.SanitizeName | pyMusicSync/utils.py:19-33 | `pathSanitize` of a present name as one expression; no contract of its own, Utils.SanitizeNameLegal, Utils.SanitizeKeepsInner and Utils.SanitizeUnchanged state its properties |
| Utils.SanitizeKeepsInner | pyMusicSync/utils.py:28-33 | only the ends are stripped: every stretch of the escaped name that starts and ends with a character that is neither whitespace nor a dot occurs whole in the sanitized name |
| Utils.SanitizeUnchanged | pyMusicSync/utils.py:15-34 | an ASCII name with no illegal character and no space or dot at either end is already sanitized |
| Utils.GenId | pyMusicSync/utils.py:37-39 | `genID`: the MD5 of the key string and of nothing else; no contract of its own, Tracks.TrackIdOfKey and LegacyObjects.HashedIdOfLegacyId state what follows |
| Utils.GetKey | pyMusicSync/utils.py:42-50 | a present key gives its value; a missing one raises when `raiseCheck` is set, and gives the default otherwise |
| Utils.ReadOptions | pyMusicSync/encoder.py:25-26 | the `setattr` loop gives each optional option its configured value, or its default |
| LegacyUtils.DeleteForbidden | utils.py:20-21 | `re.sub` of the FAT32 class leaves none of `/?<>\:*\|"^` and adds no character |
| LegacyUtils.DeleteForbiddenUnchanged | utils.py:20-21 | a name without forbidden characters is unchanged by the substitution |
| LegacyUtils.Fat32Name | utils.py:16-26 | the result has no forbidden character and no tab, no whitespace at either end, and only characters of the transliteration |
| LegacyUtils.Fat32Sanitize | utils.py:12-26 | `None` gives five hex characters; a name gives `Fat32Name` |
| LegacyUtils.Fat32Unchanged | utils.py:12-26 | an ASCII name already clean is unchanged |
| LegacyUtils.Fat32Idempotent | utils.py:12-26 | sanitizing twice gives the same as sanitizing once |
| Tracks.LosslessIff | pyMusicSync/objects/track.py:16-17 | a track is lossless exactly when its path ends in ".flac" or ".wma" after a named stem |
| Tracks.LosslessCaseSensitive | pyMusicSync/objects/track.py:16-17 | ".flac" and ".wma" are lossless but ".FLAC" is not |
| Tracks.HiddenFlacNotLossless | pyMusicSync/objects/track.py:16-17 | a file named ".flac" has no extension and is not lossless |
| Tracks.TrackNumberRoundTrip | pyMusicSync/objects/track.py:19-22 | a track tag that is a printed integer gives that track number |
| Tracks.TrackNumberNeedsDigits | pyMusicSync/objects/track.py:19-22 | a track number exists only when the tag is present and every character is whitespace, sign, digit or underscore |
| Tracks.TrackNumberRejectsSlash | pyMusicSync/objects/track.py:19-22 | a tag such as "3/12" gives no track number |
| Tracks.TrackIdOfKey | pyMusicSync/objects/track.py:18 | the track ID is the digest of the key, so tags with equal keys give equal IDs whatever the path |
| Tracks.NewTrackFields | pyMusicSync/objects/track.py:12-15 | the path is kept, no synced path is set, and a missing album or title becomes "None" |
| Tracks.TrackNumber | pyMusicSync/objects/track.py:19-22 | `int(metadata.track)`, `None` on TypeError or ValueError; no contract of its own, Tracks.TrackNumberRoundTrip, Tracks.TrackNumberNeedsDigits and Tracks.TrackNumberRejectsSlash state it |
| Tracks.NewTrack | pyMusicSync/objects/track.py:12-22 | `Track(metadata, filePath)`; no contract of its own, Tracks.NewTrackFields, Tracks.LosslessIff and Tracks.TrackIdOfKey state its fields |
| Albums.Album.constructor | pyMusicSync/objects/album.py:6-9 | a new album has its title, no tracks and no cover |
| Albums.Album.Add | pyMusicSync/objects/album.py:11-12 | a track is appended and the earlier tracks, title and cover are kept |
| ProgressTracker.Progress.constructor | pyMusicSync/objects/progress.py:6-13 | nothing finished out of a total of zero |
| ProgressTracker.Progress.Increase | pyMusicSync/objects/progress.py:15-18 | `finished` goes up by one; the percentage raises ZeroDivisionError exactly when the total is zero |
| ProgressTracker.Progress.IncTotal | pyMusicSync/objects/progress.py:20-21 | the total goes up by one |
| ProgressTracker.Progress.SetTotal | objects.py:19-20 | the total is set, and `finished` is kept |
| RecordStore.Lookup | pyMusicSync/objects/record.py:48-49 | `record[id]`: the stored path when the ID is present, and KeyError exactly when it is absent |
| RecordStore.Record.constructor | pyMusicSync/objects/record.py:18-30 | a missing file is first written as `{}`, then the file is read back into the record; the record starts clean |
| RecordStore.Record.Add | pyMusicSync/objects/record.py:32-36 | the track's ID now maps to its synced path: `get` of that ID returns the path, `metadata in record` holds for every tag set with that fingerprint, every other ID answers `get` as before, and the record is dirty |
| RecordStore.Record.Remove | pyMusicSync/objects/record.py:38-41 | a present ID is deleted and the record is dirty; an absent one raises KeyError and nothing changes |
| RecordStore.Record.Write | pyMusicSync/objects/record.py:51-54 | the file now holds the record; the dirty flag is untouched |
| RecordStore.Record.Contains | pyMusicSync/objects/record.py:43-46 | `metadata in record` holds exactly when `get` of the tags' fingerprint succeeds |
| RecordStore.Record.Get | pyMusicSync/objects/record.py:48-49 | `get(id)` returns the stored path exactly when the ID is a key, and raises KeyError otherwise |
| RecordStore.Record.IdList | pyMusicSync/objects/record.py:56-57 | `list(record.keys())`: every key exactly once |
| RecordStore.Record.AutosaveStep | pyMusicSync/objects/record.py:59-70 | one poll: stop once killed; write and clear the dirty flag when there are unsaved changes and the interval has passed; otherwise change nothing |
| RecordStore.Record.KillAutosave | pyMusicSync/objects/record.py:75-76 | sets `killed` and nothing else |
| Encoder.DetectFdkAac | pyMusicSync/encoder.py:35-46 | "libfdk_aac" exactly when ffmpeg lists it, and "aac" otherwise |
| Encoder.NewEncoderSetting | pyMusicSync/encoder.py:18-27 | the constructor computes `SettingOf`: options with defaults, then the codec table lookup |
| Encoder.DefaultSetting | pyMusicSync/encoder.py:12-20 | an empty configuration gives mp3, vbr, quality 0, libmp3lame and ".mp3" |
| Encoder.SettingOf | pyMusicSync/encoder.py:18-27 | `EncoderSetting(config)` as a value; no contract of its own, Encoder.NewEncoderSetting, Encoder.CodecTable and Encoder.ToDictRoundTrip state it |
| Encoder.CodecTable | pyMusicSync/encoder.py:19-27 | each of the four codecs gives its encoder and extension (AAC with libfdk_aac exactly when available); any other codec raises KeyError |
| Encoder.ToDict | pyMusicSync/encoder.py:29-33 | the loop builds the dictionary of the three optional options |
| Encoder.ToDictRoundTrip | pyMusicSync/encoder.py:18-33 | a setting built from its own `toDict()` is the same setting |
| Encoder.FfmpegArgsShape | pyMusicSync/encoder.py:53-58 | the command starts with the fixed prefix and the encoder, ends with `-y tmp`, and holds `-q:a` or `-b:a` with the quality for vbr and cbr, and nothing else otherwise |
| Encoder.FfmpegArgs | pyMusicSync/encoder.py:53-58 | the ffmpeg command; no contract of its own, Encoder.FfmpegArgsShape states its shape |
| Encoder.Encode | pyMusicSync/encoder.py:49-79 | builds that command and runs the retry loop `Retry` towards `dst + ext` |
| Encoder.EncodedPath | pyMusicSync/encoder.py:51-79 | when encoding ends it returns the destination with the codec's extension |
| Encoder.RetryingOnlyOnFailures | pyMusicSync/encoder.py:61-77 | the loop is still retrying only if every run failed, and then the destination is untouched |
| Encoder.EncodesAfterFailures | pyMusicSync/encoder.py:61-77 | failures that left output, then a success: the file is moved to the destination and the temporary file is gone |
| Encoder.TwoEarlyFailuresCrash | pyMusicSync/encoder.py:68-74 | two runs that fail before writing output crash with FileNotFoundError: the second `os.remove` finds no file |
| Encoder.Retry | pyMusicSync/encoder.py:61-77 | the `while not success` loop as written, over given run outcomes; no contract of its own, Encoder.EncodedPath, Encoder.RetryingOnlyOnFailures, Encoder.EncodesAfterFailures and Encoder.TwoEarlyFailuresCrash state it |
| Encoder.RetryGuarded | pyMusicSync/encoder.py:61-77 | the same loop with `os.remove` only when the temporary file exists; no contract of its own, the three lemmas below state it |
| Encoder.GuardedFailuresRetry | pyMusicSync/encoder.py:68-74 | with the guard, runs that all fail, with or without output, never crash: the loop is still retrying, the temporary file is gone and no directory changes |
| Encoder.GuardedEncodesAfterFailures | pyMusicSync/encoder.py:61-77 | with the guard, any failures followed by a success move the output to the destination and leave no temporary file |
| Encoder.GuardedAgreesWithoutCrash | pyMusicSync/encoder.py:61-77 | wherever the loop as written does not crash, the guarded loop gives the same file system and outcome |
| CoverArt.SelectEngine | pyMusicSync/cover_art.py:63-72 | waifu2x exactly for "waifu2x"; PIL for "PIL" and any other value |
| CoverArt.NewUpscaleSetting | pyMusicSync/cover_art.py:60-72 | the constructor computes `SettingOf`: options with defaults, then the engine |
| CoverArt.SettingOf | pyMusicSync/cover_art.py:60-72 | `UpscaleSetting(config)` as a value; no contract of its own, CoverArt.NewUpscaleSetting, CoverArt.SelectEngine and CoverArt.ToDictRoundTrip state it |
| CoverArt.DefaultSetting | pyMusicSync/cover_art.py:52-58 | defaults: disabled, PIL, 720 high, 1280 wide, do not ignore larger images |
| CoverArt.ToDict | pyMusicSync/cover_art.py:74-78 | the loop builds the dictionary of the five optional options |
| CoverArt.ToDictRoundTrip | pyMusicSync/cover_art.py:60-78 | a setting built from its own `toDict()` is the same setting |
| CoverArt.AtLeast | pyMusicSync/cover_art.py:88 | `n >= v` raises TypeError exactly for a string option, and compares integers normally |
| CoverArt.CopyCoverArtBranches | pyMusicSync/cover_art.py:81-97 | unreadable: skip; at least as wide or as tall: copy as is when `ignoreIfLarger`, else downscale to dst/cover.jpg; smaller: upscale with the engine to dst/cover.jpg |
| CoverArt.CopyCoverArt | pyMusicSync/cover_art.py:81-97 | the action `copy_cover_art` takes for an image size; no contract of its own, CoverArt.CopyCoverArtBranches, CoverArt.EnabledIsIgnored and CoverArt.StringTargets state it |
| CoverArt.Truthy | pyMusicSync/cover_art.py:89 | Python's truth value of the `ignoreIfLarger` option; no contract of its own, CoverArt.CopyCoverArtBranches states the branch it selects |
| CoverArt.EnabledIsIgnored | pyMusicSync/cover_art.py:81-97 | the `enabled` option changes nothing |
| CoverArt.StringTargets | pyMusicSync/cover_art.py:88 | a string target width raises; a string target height raises only when the image is narrower than the target width |
| Filter.NewRule | pyMusicSync/filter.py:10-16 | a regex rule compiles its value, which must be a compiling string; other operators keep the value |
| Filter.LessEq | pyMusicSync/filter.py:25 | `<=` is defined on two numbers or two strings (lexicographic), and raises TypeError otherwise |
| Filter.RuleExecute | pyMusicSync/filter.py:18-27 | an unknown operator raises NotImplementedError; a missing field raises KeyError; `<=` compares; regex searches |
| Filter.AllPassIff | pyMusicSync/filter.py:39-43 | the filter passes exactly when every rule returns True |
| Filter.AllPass | pyMusicSync/filter.py:39-43 | `Filter.execute` as a value; no contract of its own, Filter.AllPassIff, Filter.AllPassIgnoresLater and Filter.AllPassContinues state it |
| Filter.AllPassIgnoresLater | pyMusicSync/filter.py:39-43 | once a rule fails or raises, later rules make no difference |
| Filter.AllPassContinues | pyMusicSync/filter.py:39-43 | after rules that all pass, the verdict is that of the rest |
| Filter.UnknownOperatorAfterFalse | pyMusicSync/filter.py:39-43 | an unknown operator behind a false rule is never reached, so the verdict is False instead of an exception |
| Filter.RuleRegistry.constructor | pyMusicSync/filter.py:31 | the shared class-level list starts empty |
| Filter.Filter.constructor | pyMusicSync/filter.py:33-34 | a filter refers to the shared list |
| Filter.Filter.AddRule | pyMusicSync/filter.py:36-37 | a rule that constructs is appended to the shared list; one that raises is not |
| Filter.Filter.Execute | pyMusicSync/filter.py:39-43 | the rule loop with early return computes `AllPass` over the shared rules |
| Filter.SharedRules | pyMusicSync/filter.py:31-37 | a rule added through one filter is applied by another |
| SyncSpec.FirstFile | pyMusicSync/sync.py:29-33 | the first candidate name that is a file, or past the end when none is |
| SyncSpec.DetectCoverFirst | pyMusicSync/sync.py:25-33 | the cover is the first existing file in priority order, and `None` exactly when none exists |
| SyncSpec.DetectCoverFile | pyMusicSync/sync.py:25-33 | `__detectCoverFile(root)`; no contract of its own, SyncSpec.DetectCoverFirst states the priority order |
| SyncSpec.SanitizedHasNoSlash | pyMusicSync/sync.py:112 | a sanitized album or title holds no slash |
| SyncSpec.Format02dHasNoSlash | pyMusicSync/sync.py:116 | `{:02d}` holds no slash |
| SyncSpec.Format02dTwoDigits | pyMusicSync/sync.py:116-117 | a track number below 100 prints as two digits that read back as the number |
| SyncSpec.FileNameHasNoSlash | pyMusicSync/sync.py:113-117 | the file name holds no slash when the extension holds none |
| SyncSpec.GetFilePathParts | pyMusicSync/sync.py:111-119 | the path splits into the sanitized album and the file name |
| SyncSpec.GetFilePath | pyMusicSync/sync.py:110-119 | `__getFilePath(track, ext)`; no contract of its own, SyncSpec.GetFilePathParts states its two parts |
| SyncSpec.ExtHasNoSlash | pyMusicSync/sync.py:70 | `splitext`'s extension holds no slash |
| SyncSpec.JoinAppend | pyMusicSync/encoder.py:51 | appending a suffix to a joined path appends it to the file name |
| SyncSpec.FileNameAppend | pyMusicSync/sync.py:113-117 | the file name with an extension is the file name without one, followed by the extension |
| SyncSpec.EncodedNameAppends | pyMusicSync/sync.py:67-68 | `encode` appending its extension to the extension-less path gives the path with that extension |
| SyncSpec.ToPlacement | pyMusicSync/sync.py:67-68 | the track is placed exactly when encoding returned a path, and at that path |
| SyncSpec.EncodePlacement | pyMusicSync/sync.py:66-68 | an encoded track lands at the extension-less path plus the codec's extension |
| SyncSpec.HandleDryRun | pyMusicSync/sync.py:64-73 | in a dry run nothing is written, and `record.add` raises AttributeError because no synced path was set |
| SyncSpec.HandleRecordsOnce | pyMusicSync/sync.py:72-73 | a placed track is recorded under its ID with its path and `finished` goes up by one (the percentage raises when the total is 0); an unplaced one changes nothing |
| SyncSpec.PlaceDryRun | pyMusicSync/sync.py:65 | a dry run leaves the file system alone |
| SyncSpec.PlaceCopy | pyMusicSync/sync.py:69-71 | a lossy track is copied to album/name+ext when its source and the album folder exist, and raises FileNotFoundError otherwise |
| SyncSpec.PlaceEncoded | pyMusicSync/sync.py:66-68 | an encoded lossless track lands at album/name + codec extension |
| SyncSpec.Place | pyMusicSync/sync.py:65-71 | the placement branch of `__trackHandle`; no contract of its own, SyncSpec.PlaceDryRun, SyncSpec.PlaceCopy and SyncSpec.PlaceEncoded state its branches |
| SyncSpec.Commit | pyMusicSync/sync.py:72-73 | `record.add` then `progress.increase()`; no contract of its own, SyncSpec.HandleRecordsOnce and SyncSpec.HandleDryRun state it |
| SyncSpec.AcceptedOne | pyMusicSync/sync.py:42-53 | a file contributes at most one accepted track |
| SyncSpec.ScanFile | pyMusicSync/sync.py:40-56 | the current album of the directory stays a known album |
| SyncSpec.ScanFiles | pyMusicSync/sync.py:40-56 | the current album stays known over the files of a directory |
| SyncSpec.ScanDir | pyMusicSync/sync.py:37-61 | after a directory, its last accepted album is in the album map |
| SyncSpec.OfAlbumAppend | pyMusicSync/sync.py:54 | the tracks of an album over two runs are those of the first run followed by those of the second |
| SyncSpec.ScanFileCounts | pyMusicSync/sync.py:42-56 | one file: its ID joins the seen set whether or not it is accepted; the count and current album move only for an accepted file |
| SyncSpec.ScanFileAlbums | pyMusicSync/sync.py:50-54 | one file: an accepted track is appended to its album, created without cover if new; no other album changes |
| SyncSpec.ScanFileStep | pyMusicSync/sync.py:40-56 | one file: all of the above at once |
| SyncSpec.ScanFilesIds | pyMusicSync/sync.py:40-56 | over a directory's files, the seen set grows by every readable file's ID and the count by the accepted tracks |
| SyncSpec.ScanFilesTracks | pyMusicSync/sync.py:50-54 | each album's tracks grow by exactly the accepted tracks of that album, in file order |
| SyncSpec.ScanFilesKeys | pyMusicSync/sync.py:51-52 | an album exists afterwards exactly when it existed or received a track |
| SyncSpec.ScanFilesCovers | pyMusicSync/sync.py:51-52 | the files loop keeps existing covers, and new albums have none |
| SyncSpec.ScanFilesLast | pyMusicSync/sync.py:50 | `albumName` ends as the album of the last accepted track |
| SyncSpec.ScanFilesSpec | pyMusicSync/sync.py:40-56 | the whole effect of a directory's files loop |
| SyncSpec.ScanDirSpec | pyMusicSync/sync.py:37-61 | a directory: as above, and the cover goes only to the album of its last accepted track; no accepted track leaves the albums alone |
| SyncSpec.ScanWalkCounts | pyMusicSync/sync.py:35-62 | over the walk, the seen set holds every readable file's ID and the total counts every accepted track |
| SyncSpec.ScanWalkTracks | pyMusicSync/sync.py:35-62 | over the walk, each album's tracks are exactly its accepted tracks in walk order |
| SyncSpec.ScanWalk | pyMusicSync/sync.py:35-62 | the `folderTraversal` walk as a value; no contract of its own, SyncSpec.ScanWalkCounts and SyncSpec.ScanWalkTracks state it |
| SyncSpec.ScanFileEffects | pyMusicSync/sync.py:42-49 | an unreadable file changes nothing; a readable one adds its ID; a rejected one adds no track |
| SyncSpec.PruneNothingStale | pyMusicSync/sync.py:96-97 | when every recorded ID was seen, prune changes nothing |
| SyncSpec.PruneOnlyDeletes | pyMusicSync/sync.py:93-104 | prune never adds a file, directory or record entry |
| SyncSpec.PruneResult | pyMusicSync/sync.py:93-104 | a prune without exception keeps exactly the seen IDs with their paths, and every stale file is gone |
| SyncSpec.PruneOneDirectory | pyMusicSync/sync.py:99-104 | one stale track: its file and entry go, and its folder is removed exactly when only cover files are left in it |
| SyncSpec.PruneOne | pyMusicSync/sync.py:97-104 | one stale ID in `prune`: delete the file, the folder if only covers remain, then the entry; no contract of its own, SyncSpec.PruneOneOk and SyncSpec.PruneOneDirectory state it |
| SyncSpec.PruneOneOk | pyMusicSync/sync.py:97-104 | when one stale ID is pruned without error, its entry was present and is the only one removed, no file is added, and its synced file is gone |
| SyncSpec.PruneLoop | pyMusicSync/sync.py:96-104 | the `prune` loop as a value; no contract of its own, SyncSpec.PruneNothingStale, SyncSpec.PruneOnlyDeletes and SyncSpec.PruneResult state it |
| SyncSpec.PruneTopLevelFileRaises | pyMusicSync/sync.py:99-101 | a stale file at the top of the destination makes `os.listdir("")` raise FileNotFoundError after the file is deleted |
| Sync.MusicSync.constructor | pyMusicSync/sync.py:20-23 | the record is loaded from its file; there are no albums and no seen IDs, and nothing is finished |
| Sync.MusicSync.AddToAlbum | pyMusicSync/sync.py:51-54 | the track is appended to its album, which is created without cover if new |
| Sync.MusicSync.CreateAlbum | pyMusicSync/sync.py:51-52 | a new name gets an empty album without cover, every other album unchanged |
| Sync.MusicSync.AppendTrack | pyMusicSync/sync.py:54 | only the named album changes, by the track appended at the end of its list |
| Sync.MusicSync.AddId | pyMusicSync/sync.py:48 | the ID joins the seen set and the albums are untouched |
| Sync.MusicSync.SetCover | pyMusicSync/sync.py:59 | only that album's cover changes |
| Sync.MusicSync.ScanOne | pyMusicSync/sync.py:41-56 | one file of the walk computes `ScanFile` on the engine's state |
| Sync.MusicSync.ScanFilesOf | pyMusicSync/sync.py:40-56 | the files loop of one directory leaves the albums, the seen IDs, the count and the last album exactly as `ScanFiles` says |
| Sync.MusicSync.ScanDirectory | pyMusicSync/sync.py:38-61 | one directory of the walk computes `ScanDir` |
| Sync.MusicSync.FolderTraversal | pyMusicSync/sync.py:35-62 | the walk computes `ScanWalk`, and the progress total is the count of accepted tracks |
| Sync.MusicSync.PlaceTrack | pyMusicSync/sync.py:65-71 | encode or copy (nothing in a dry run) computes `Place` |
| Sync.MusicSync.CommitTrack | pyMusicSync/sync.py:72-73 | `record.add` then `progress.increase` computes `Commit` |
| Sync.MusicSync.TrackHandle | pyMusicSync/sync.py:64-73 | `__trackHandle` is placement followed by commit |
| Sync.MusicSync.PruneTrack | pyMusicSync/sync.py:97-104 | one stale ID computes `PruneOne`: delete, list, remove the folder if only covers are left, drop the entry |
| Sync.MusicSync.PruneIds | pyMusicSync/sync.py:96-104 | the loop over a given order of IDs computes `PruneLoop` on the record and the files |
| Sync.MusicSync.Prune | pyMusicSync/sync.py:93-104 | it loops over every recorded ID once and computes `PruneLoop`; without exception it keeps exactly the seen IDs and deletes every stale file |
| LegacyObjects.LegacyTrackAgrees | objects.py:40-45 | the old track agrees with the new one on path, lossless test and title; its unhashed ID digests to the new ID |
| LegacyObjects.LegacyIdIffKey | objects.py:47-49 | two old IDs are equal exactly when the keys are equal |
| LegacyObjects.HashedIdOfLegacyId | objects.py:47-50 | the root `genID` is the digest of the objects' unhashed ID |
| LegacyObjects.LegacyGenId | objects.py:47-50 | the unhashed key string; no contract of its own, LegacyObjects.LegacyIdIffKey and LegacyObjects.HashedIdOfLegacyId state it |
| LegacyObjects.LegacyAlbum.constructor | objects.py:59-62 | a new album has its title, no tracks and the cover "" |
| LegacyObjects.LegacyAlbum.AddTrack | sync.py:64 | a track is appended; title and cover are kept |
| LegacyObjects.ListRecord.constructor | objects.py:70-79 | a missing file is written with the class-level `[]`, and the file is read back |
| LegacyObjects.ListRecord.Add | objects.py:81-83 | the ID is appended, so it occurs once more and no other ID's count changes |
| LegacyObjects.Occurrences | objects.py:81-86 | how often an ID occurs in the list: at most the list's length, and positive exactly when the ID is in the list |
| LegacyObjects.ListRecord.Query | objects.py:85-86 | true exactly when the ID occurs in the list |
| LegacyObjects.ListRecord.QueryMetadata | objects.py:88-95 | true exactly when the tags' key is in the list; tags with the same key get the same answer |
| LegacyObjects.ListRecord.Write | objects.py:97-99 | the file now holds the list |
| LegacyObjects.QueryAfterAdd | objects.py:81-90 | after `add` the tags are found, and only the added key changes any answer |
| LegacySync.CheckValid | sync.py:24-34 | valid exactly when at most 15 minutes, not of a blacklisted album, and not in the record |
| LegacySync.CheckValidBoundary | sync.py:26-29 | 900 s is accepted, 900.001 s is not; a missing album is never blacklisted |
| LegacySync.Fat32HasNoSlash | utils.py:12-26 | a FAT32-sanitized name holds no slash |
| LegacySync.LegacyGetFilePathParts | sync.py:117-119 | the path splits into the sanitized album and sanitized title + ext; a missing album gives a five-character folder |
| LegacySync.LegacyGetFilePath | sync.py:117-119 | `__getFilePath(album, title, ext)`; no contract of its own, LegacySync.LegacyGetFilePathParts states its parts |
| LegacySync.ValidOne | sync.py:53-63 | a file contributes at most one entry |
| LegacySync.LegacyScanFile | sync.py:51-66 | the current album stays a known album |
| LegacySync.LegacyScanFiles | sync.py:51-66 | the current album stays known over a directory's files |
| LegacySync.LegacyScanDir | sync.py:48-71 | after a directory, its last valid album is in the album map |
| LegacySync.TracksForAppend | sync.py:64 | an album's tracks over two runs are those of the first followed by those of the second |
| LegacySync.LegacyScanFileStep | sync.py:51-66 | one file: its ID is seen unconditionally; a valid track is appended to its album (created with cover "" if new) and counted |
| LegacySync.LegacyScanFilesIds | sync.py:51-66 | over a directory, the seen set grows by every readable file's ID and the count by the valid tracks |
| LegacySync.LegacyScanFilesTracks | sync.py:60-64 | each album's tracks grow by exactly its valid tracks in file order |
| LegacySync.LegacyScanFilesCovers | sync.py:60-62 | existing covers are kept and `albumName` ends as the last valid album |
| LegacySync.LegacyScanDirSpec | sync.py:48-71 | a directory: as above, and the cover goes only to its last valid album |
| LegacySync.LegacyScanWalkCounts | sync.py:46-72 | over the walk, the seen set holds every readable file's ID and the total counts every valid track |
| LegacySync.LegacyScanWalkTracks | sync.py:46-72 | over the walk, each album's tracks are exactly its valid tracks in walk order |
| LegacySync.LegacyScanWalk | sync.py:46-72 | the legacy walk as a value; no contract of its own, LegacySync.LegacyScanWalkCounts and LegacySync.LegacyScanWalkTracks state it |
| LegacySync.PruneAsWrittenRaises | sync.py:106-108 | the first stale ID always ends prune with an exception; when its file exists, the file and entry are gone and the second `record.get` raises KeyError |
| LegacySync.PruneAsWrittenExample | sync.py:103-111 | on one stale track in folder A, the code as written deletes the track, raises KeyError and leaves A; the corrected order succeeds |
| LegacySync.PruneOneAsWritten | sync.py:104-111 | one stale ID as written: remove the file, remove the entry, then `get` it again; no contract of its own, LegacySync.PruneAsWrittenRaises states that it always ends in an exception, KeyError once a present file was deleted |
| LegacySync.PruneLoopAsWritten | sync.py:103-111 | the legacy `prune` loop, ended by the first exception; no contract of its own, LegacySync.PruneStopsAtFirstStale states it |
| LegacySync.FirstStale | sync.py:103-104 | the position of the first recorded ID not seen, or past the end |
| LegacySync.PruneStopsAtFirstStale | sync.py:103-111 | prune as written changes nothing without a stale ID, and otherwise stops with an exception at the first one |
| LegacySync.LegacyMusicSync.constructor | sync.py:19-22 | the record is loaded from its file; no albums, no seen IDs, nothing finished |
| LegacySync.LegacyMusicSync.AddToAlbum | sync.py:61-64 | the track is appended to the album of its tag, which is created with cover "" if new |
| LegacySync.LegacyMusicSync.CreateAlbum | sync.py:61-62 | a new name gets an empty album with cover "", every other album unchanged |
| LegacySync.LegacyMusicSync.AppendTrack | sync.py:64 | only the named album changes, by the track appended at the end of its list |
| LegacySync.LegacyMusicSync.AddId | sync.py:58 | the ID joins the seen set |
| LegacySync.LegacyMusicSync.SetCover | sync.py:69 | only that album's cover changes |
| LegacySync.LegacyMusicSync.ScanOne | sync.py:52-66 | one file computes `LegacyScanFile` |
| LegacySync.LegacyMusicSync.ScanFilesOf | sync.py:51-66 | the files loop of one directory leaves the albums, the seen IDs, the count and the last album exactly as `LegacyScanFiles` says |
| LegacySync.LegacyMusicSync.ScanDirectory | sync.py:49-71 | one directory computes `LegacyScanDir` |
| LegacySync.LegacyMusicSync.FolderTraversal | sync.py:46-72 | the walk computes `LegacyScanWalk`; the progress total is the count of valid tracks |
| LegacySync.LegacyMusicSync.PruneTrack | sync.py:104-111 | one stale ID in the written order computes `PruneOneAsWritten` |
| LegacySync.LegacyMusicSync.Prune | sync.py:100-111 | it loops over every recorded ID once; it succeeds exactly when no recorded ID is stale, and then changes nothing |

## Left out

- Threads: the worker pool of `startSync` and the autosave thread. `RecordStore.Record.AutosaveStep` is one iteration of the autosave loop, with the clock as input. The locks are not modelled.
- `startSync` and `__createAlbumDirectory` (pyMusicSync/sync.py:76-91, sync.py:87-98) are not modelled. They iterate a dictionary, create directories and submit work to threads. `Sync.MusicSync.TrackHandle` models what one worker does with one track.
- `shutdown` is not modelled. It is `RecordStore.Record.KillAutosave` followed by `RecordStore.Record.Write`. In sync.py it calls `stopAutosave`, which no record class has.
- ProgressTracker.Progress.Increase: the floating-point percentage is not kept. Only its ZeroDivisionError on a zero total is modelled.
- File contents, the JSON encoding and logging are not modelled. A record file is the map or list it holds.
- RecordStore.Record.Write: the file is overwritten in place; no atomic replacement is modelled, and the code has none.
- `PILResize`, `Waifu2xResize` and the image arithmetic in them are not modelled. `copy_cover_art` is modelled only up to the action it chooses; the image size is an input.
- The configuration loaders (pyMusicSync/config.py, config.py), main.py, pyMusicSync/modifier.py and the root encoder.py are not part of this model.
- pyMusicSync/sync.py calls `config.modifier.apply` and `config.filter.check`. The configuration class has neither. The modifier is taken to change nothing, and the filter's verdict is the parameter `check`.
- Text.ParseIntChars: `int()` is modelled for ASCII digits only. Python also accepts other Unicode digits.
- Utils.Unidecode applies a per-character table. Context-dependent transliteration is not modelled.
- The `.3f` format is modelled as round-half-even of the exact value times 1000. The binary representation of Python floats is not modelled.
- sync.py is modelled against the map-based `RecordStore.Record`. `objects.Record` of objects.py takes one argument, is a list, and has no `get`, `remove`, `__contains__` or autosave, so sync.py cannot run against it.
- `Album.addTrack`, called at sync.py:64, is modelled as the append of the package's `add`. The album class of objects.py has no such method.
- The legacy `__trackHandle` and `startSync` of sync.py (lines 74-98) are not modelled beyond `LegacySync.LegacyGetFilePath`, their path computation.
- Sync.MusicSync.TrackHandle returns the synced path in its outcome. It does not write it back into the track objects held by the albums.
- LegacyObjects.ListRecord.constructor: `read` is modelled only inside the constructor, the one place the code calls it.
- Encoder.Encode: ffmpeg's behaviour is the given sequence of run outcomes. When they are used up the model reports `Retrying`, where Python would loop on.
- `mkstemp`'s temporary names are inputs (`tmpFile`), and `random` is the parameter `RandomSource`.
- Tags.Metadata: the duration is always a number. TinyTag gives `None` for a file it reads but cannot time; `"{0.duration:.3f}"` (pyMusicSync/utils.py:38) and `duration > 60 * 15` (sync.py:26) then raise TypeError and abort the whole walk. That abort is not modelled, so SyncSpec.ScanWalkCounts, LegacySync.CheckValid and the other scan lemmas hold only for tags that carry a duration.
- RecordStore.Record.IdList: the IDs come in some order, not the dictionary's insertion order. The order decides only which entries a prune that fails part-way has already removed; Sync.MusicSync.Prune is proved for every order.
- Encoder.Encode models the retry loop as written (`Encoder.Retry`), including its crash on a second failure without output; the guarded loop `Encoder.RetryGuarded` is stated beside it and not called by any method.

## Findings

| source | as written | input that shows it | evidently intended | confidence | as-written member | corrected member |
|---|---|---|---|---|---|---|
| sync.py:106-108 | `prune` calls `record.remove(trackID)` and then `record.get(trackID)` to find the folder, so the second lookup always raises KeyError | a record `{"t": "A/s.mp3"}` with "A/s.mp3" present and "t" not seen: the file is deleted, KeyError is raised, and folder A is never examined | read the path before removing the entry, as pyMusicSync/sync.py:99-104 does: delete the file, remove the folder if only covers are left, then remove the entry | high (proved, not executed) | LegacySync.PruneOneAsWritten (LegacySync.PruneAsWrittenRaises, LegacySync.PruneAsWrittenExample) | SyncSpec.PruneOne (SyncSpec.PruneOneDirectory, SyncSpec.PruneResult), used by Sync.MusicSync.Prune |
| pyMusicSync/encoder.py:73 | after every failed run the loop calls `os.remove(tmpFile)`, which raises FileNotFoundError when the file is already gone | two ffmpeg runs in a row that fail before writing their output: the first removes the file `mkstemp` created, the second finds none and `encode` ends with FileNotFoundError instead of retrying | after a failure, remove the temporary file only if it exists, so every failure leads to another run | high (proved, not executed) | Encoder.TwoEarlyFailuresCrash (on Encoder.Retry) | Encoder.RetryGuarded (Encoder.GuardedFailuresRetry, Encoder.GuardedEncodesAfterFailures, Encoder.GuardedAgreesWithoutCrash) |
