/** pyMusicSync/encoder.py: the encoder settings read from the configuration,
    the ffmpeg command line and the retry loop around it. ffmpeg itself is an
    oracle: its codec listing is a string and each run's outcome is given. */
module Encoder {
  import opened Wrappers
  import opened Text
  import opened Utils
  import opened FileSystem

  /** `EncoderSetting.OPTIONAL_OPTIONS`. */
  const EncoderDefaults: map<string, string> := map["codec" := "mp3", "bitrateControl" := "vbr", "quality" := "0"]

  /** The attributes of an `EncoderSetting` once constructed. */
  datatype EncoderSetting = EncoderSetting(codec: string, bitrateControl: string, quality: string, encoder: string, ext: string)

  /** `detect_fdkaac()` on the text `ffmpeg -codecs` printed. */
  function DetectFdkAac(ffmpegCodecs: string): (r: string)
    ensures r == "libfdk_aac" <==> Contains(ffmpegCodecs, "libfdk_aac")
    ensures r == "libfdk_aac" || r == "aac"
  {
    if Contains(ffmpegCodecs, "libfdk_aac") then "libfdk_aac" else "aac"
  }

  /** The `codecMap` built in `__init__`: codec name to (ffmpeg encoder, extension). */
  function CodecMap(aacEncoder: string): map<string, (string, string)> {
    map["mp3" := ("libmp3lame", ".mp3"), "opus" := ("libopus", ".ogg"),
        "ogg" := ("libvorbis", ".ogg"), "aac" := (aacEncoder, ".mp4")]
  }

  /** `EncoderSetting(config)` as a specification: every option from the
      configuration or its default, then `codecMap[self.codec]`, which raises
      KeyError for a codec outside the table. The probe runs whatever the codec. */
  function SettingOf(config: map<string, string>, ffmpegCodecs: string): Result<EncoderSetting> {
    var option := (key: string) requires key in EncoderDefaults => if key in config then config[key] else EncoderDefaults[key];
    var table := CodecMap(DetectFdkAac(ffmpegCodecs));
    var codec := option("codec");
    if codec in table then
      Ok(EncoderSetting(codec, option("bitrateControl"), option("quality"), table[codec].0, table[codec].1))
    else Err(KeyError)
  }

  /** `EncoderSetting(config)`: the `setattr` loop over the optional options
      and the codec lookup. */
  method NewEncoderSetting(config: map<string, string>, ffmpegCodecs: string) returns (r: Result<EncoderSetting>)
    ensures r == SettingOf(config, ffmpegCodecs)
  {
    var codecMap := CodecMap(DetectFdkAac(ffmpegCodecs));
    var attrs := ReadOptions(config, EncoderDefaults);
    var codec := attrs["codec"];
    if codec !in codecMap {
      return Err(KeyError);
    }
    var (encoder, ext) := codecMap[codec];
    r := Ok(EncoderSetting(codec, attrs["bitrateControl"], attrs["quality"], encoder, ext));
  }

  /** With an empty configuration the encoder is LAME at VBR quality 0. */
  lemma DefaultSetting(ffmpegCodecs: string)
    ensures SettingOf(map[], ffmpegCodecs) == Ok(EncoderSetting("mp3", "vbr", "0", "libmp3lame", ".mp3"))
  {
  }

  /** The codec table: four codecs and their encoders and extensions; AAC uses
      libfdk_aac exactly when ffmpeg lists it; any other codec raises KeyError. */
  lemma CodecTable(config: map<string, string>, ffmpegCodecs: string)
    requires "codec" in config
    ensures var r := SettingOf(config, ffmpegCodecs);
      && (config["codec"] == "mp3" ==> r.Ok? && r.value.encoder == "libmp3lame" && r.value.ext == ".mp3")
      && (config["codec"] == "opus" ==> r.Ok? && r.value.encoder == "libopus" && r.value.ext == ".ogg")
      && (config["codec"] == "ogg" ==> r.Ok? && r.value.encoder == "libvorbis" && r.value.ext == ".ogg")
      && (config["codec"] == "aac" ==>
            r.Ok? && r.value.ext == ".mp4" && (r.value.encoder == "libfdk_aac" <==> Contains(ffmpegCodecs, "libfdk_aac")))
      && (config["codec"] !in {"mp3", "opus", "ogg", "aac"} ==> r == Err(KeyError))
  {
  }

  /** `getattr(self, key)` for an optional option. */
  function Attr(s: EncoderSetting, key: string): string
    requires key in EncoderDefaults
  {
    if key == "codec" then s.codec else if key == "bitrateControl" then s.bitrateControl else s.quality
  }

  /** The dictionary `toDict()` returns: the three optional options and their current values. */
  function SettingDict(s: EncoderSetting): map<string, string> {
    map["codec" := s.codec, "bitrateControl" := s.bitrateControl, "quality" := s.quality]
  }

  /** `toDict()`: the loop over the option names. */
  method ToDict(s: EncoderSetting) returns (d: map<string, string>)
    ensures d == SettingDict(s)
  {
    d := map[];
    var rest := EncoderDefaults.Keys;
    while rest != {}
      invariant rest <= EncoderDefaults.Keys
      invariant d.Keys == EncoderDefaults.Keys - rest
      invariant forall k :: k in d ==> d[k] == Attr(s, k)
      decreases |rest|
    {
      var key :| key in rest;
      d := d[key := Attr(s, key)];
      rest := rest - {key};
    }
    SettingDictOfAttrs(s, d);
  }

  /** A dictionary holding every option name, each mapped to its attribute, is `SettingDict`. */
  lemma SettingDictOfAttrs(s: EncoderSetting, d: map<string, string>)
    requires d.Keys == EncoderDefaults.Keys
    requires forall k :: k in d ==> d[k] == Attr(s, k)
    ensures d == SettingDict(s)
  {
    var e := SettingDict(s);
    assert d.Keys == e.Keys;
    forall k | k in d
      ensures d[k] == e[k]
    {
    }
  }

  /** Writing the settings out with `toDict` and reading them back gives the
      same settings. */
  lemma ToDictRoundTrip(config: map<string, string>, ffmpegCodecs: string)
    requires SettingOf(config, ffmpegCodecs).Ok?
    ensures var s := SettingOf(config, ffmpegCodecs).value;
      SettingOf(SettingDict(s), ffmpegCodecs) == Ok(s)
  {
  }

  // ----- the ffmpeg command ------------------------------------------------

  /** The command `encode` runs. */
  function FfmpegArgs(src: string, s: EncoderSetting, tmpFile: string): seq<string> {
    var rate := if s.bitrateControl == "vbr" then ["-q:a", s.quality]
                else if s.bitrateControl == "cbr" then ["-b:a", s.quality]
                else [];
    ["ffmpeg", "-v", "warning", "-i", src, "-vn", "-c:a", s.encoder] + rate + ["-y", tmpFile]
  }

  /** The command always starts with the input and encoder and ends by
      overwriting the temporary file; in between is the quality option for
      VBR, the bitrate option for CBR, and nothing for any other mode. */
  lemma FfmpegArgsShape(src: string, s: EncoderSetting, tmpFile: string)
    ensures var a := FfmpegArgs(src, s, tmpFile);
      && |a| >= 10
      && a[..8] == ["ffmpeg", "-v", "warning", "-i", src, "-vn", "-c:a", s.encoder]
      && a[|a| - 2..] == ["-y", tmpFile]
      && (s.bitrateControl == "vbr" ==> a[8..|a| - 2] == ["-q:a", s.quality])
      && (s.bitrateControl == "cbr" ==> a[8..|a| - 2] == ["-b:a", s.quality])
      && (s.bitrateControl != "vbr" && s.bitrateControl != "cbr" ==> |a| == 10)
  {
  }

  // ----- the retry loop ------------------------------------------------------

  /** What one ffmpeg run does: succeed, or fail after or before it has
      created its output file. */
  datatype RunOutcome = Succeeded | FailedWithOutput | FailedWithoutOutput

  /** How `encode` ends: it returns the destination, an exception escapes, or
      (when the given runs are used up) it is still retrying. */
  datatype EncodeOutcome = Encoded(path: string) | Crashed(error: Error) | Retrying

  /** The loop `while not success` as a specification: on success the
      temporary file is moved to the destination, on failure it is removed
      (`os.remove`, which raises when the run left no file) and the same
      command runs again. */
  function Retry(fs: Fs, tmp: string, dst: string, runs: seq<RunOutcome>): (Fs, EncodeOutcome)
    decreases |runs|
  {
    if runs == [] then (fs, Retrying)
    else match runs[0]
      case Succeeded =>
        (match Move(Create(fs, tmp), tmp, dst)
         case Ok(fs1) => (fs1, Encoded(dst))
         case Err(e) => (Create(fs, tmp), Crashed(e)))
      case FailedWithOutput =>
        (match Remove(Create(fs, tmp), tmp)
         case Ok(fs1) => Retry(fs1, tmp, dst, runs[1..])
         case Err(e) => (Create(fs, tmp), Crashed(e)))
      case FailedWithoutOutput =>
        (match Remove(fs, tmp)
         case Ok(fs1) => Retry(fs1, tmp, dst, runs[1..])
         case Err(e) => (fs, Crashed(e)))
  }

  /** `encode(src, dst, setting)`: create the temporary file, build the
      command with `extend`, and rerun it until a run succeeds. */
  method Encode(fs: Fs, src: string, dst: string, s: EncoderSetting, tmpFile: string, runs: seq<RunOutcome>)
    returns (fsOut: Fs, args: seq<string>, out: EncodeOutcome)
    ensures args == FfmpegArgs(src, s, tmpFile)
    ensures (fsOut, out) == Retry(Create(fs, tmpFile), tmpFile, dst + s.ext, runs)
  {
    var current := Create(fs, tmpFile);
    var target := dst + s.ext;
    args := ["ffmpeg", "-v", "warning", "-i", src, "-vn", "-c:a", s.encoder];
    if s.bitrateControl == "vbr" {
      args := args + ["-q:a", s.quality];
    } else if s.bitrateControl == "cbr" {
      args := args + ["-b:a", s.quality];
    }
    args := args + ["-y", tmpFile];
    var success := false;
    var i := 0;
    out := Retrying;
    while !success && i < |runs|
      invariant 0 <= i <= |runs|
      invariant !success ==> out == Retrying
      invariant !success ==> Retry(current, tmpFile, target, runs[i..]) == Retry(Create(fs, tmpFile), tmpFile, target, runs)
      invariant success ==> (current, out) == Retry(Create(fs, tmpFile), tmpFile, target, runs)
      decreases |runs| - i, !success
    {
      assert runs[i..][0] == runs[i] && runs[i..][1..] == runs[i + 1..];
      if runs[i] == Succeeded {
        var m := Move(Create(current, tmpFile), tmpFile, target);
        if m.Err? {
          return Create(current, tmpFile), args, Crashed(m.error);
        }
        current, out, success := m.value, Encoded(target), true;
      } else {
        var written := if runs[i] == FailedWithOutput then Create(current, tmpFile) else current;
        var r := Remove(written, tmpFile);
        if r.Err? {
          return written, args, Crashed(r.error);
        }
        current := r.value;
        i := i + 1;
      }
    }
    fsOut := current;
    if !success {
      assert runs[i..] == [];
    }
  }

  /** `encode` only ever returns the destination with the codec's extension. */
  lemma {:induction false} EncodedPath(fs: Fs, tmp: string, dst: string, runs: seq<RunOutcome>)
    ensures Retry(fs, tmp, dst, runs).1.Encoded? ==> Retry(fs, tmp, dst, runs).1.path == dst
    decreases |runs|
  {
    if runs != [] && runs[0] != Succeeded {
      var w := if runs[0] == FailedWithOutput then Create(fs, tmp) else fs;
      if Remove(w, tmp).Ok? {
        EncodedPath(Remove(w, tmp).value, tmp, dst, runs[1..]);
      }
    }
  }

  /** While no run has succeeded, the loop never moves anything to the
      destination: it is still retrying only when every run failed, and the
      destination exists afterwards only if it did before or a run succeeded. */
  lemma {:induction false} RetryingOnlyOnFailures(fs: Fs, tmp: string, dst: string, runs: seq<RunOutcome>)
    requires tmp != dst
    ensures Retry(fs, tmp, dst, runs).1 == Retrying ==> forall i :: 0 <= i < |runs| ==> runs[i] != Succeeded
    ensures (forall i :: 0 <= i < |runs| ==> runs[i] != Succeeded) ==>
      (IsFile(Retry(fs, tmp, dst, runs).0, dst) <==> IsFile(fs, dst))
    decreases |runs|
  {
    if runs != [] {
      if runs[0] != Succeeded {
        var w := if runs[0] == FailedWithOutput then Create(fs, tmp) else fs;
        if Remove(w, tmp).Ok? {
          RetryingOnlyOnFailures(Remove(w, tmp).value, tmp, dst, runs[1..]);
          assert forall i :: 1 <= i < |runs| ==> runs[i] == runs[1..][i - 1];
        }
      }
    }
  }

  /** After any number of failures that left their output behind, the first
      success moves the encoded file to the destination. */
  lemma {:induction false} EncodesAfterFailures(fs: Fs, tmp: string, dst: string, runs: seq<RunOutcome>, k: nat)
    requires k < |runs| && runs[k] == Succeeded
    requires forall i :: 0 <= i < k ==> runs[i] == FailedWithOutput
    requires tmp != dst && !IsDir(fs, dst) && ParentExists(fs, dst)
    ensures Retry(fs, tmp, dst, runs).1 == Encoded(dst)
    ensures IsFile(Retry(fs, tmp, dst, runs).0, dst) && !IsFile(Retry(fs, tmp, dst, runs).0, tmp)
    decreases k
  {
    var c := Create(fs, tmp);
    if k > 0 {
      assert runs[0] == FailedWithOutput;
      assert Remove(c, tmp).Ok?;
      var fs1 := Remove(c, tmp).value;
      assert fs1.dirs == fs.dirs;
      assert Retry(fs, tmp, dst, runs) == Retry(fs1, tmp, dst, runs[1..]);
      assert forall i :: 0 <= i < k - 1 ==> runs[1..][i] == runs[i + 1];
      EncodesAfterFailures(fs1, tmp, dst, runs[1..], k - 1);
    } else {
      assert Target(c, tmp, dst) == dst;
      assert Move(c, tmp, dst).Ok?;
      assert Retry(fs, tmp, dst, runs) == (Move(c, tmp, dst).value, Encoded(dst));
    }
  }

  /** A failure that leaves no output right after a failure whose output was
      removed makes `os.remove` raise: the loop ends with FileNotFoundError
      instead of retrying. */
  lemma TwoEarlyFailuresCrash(fs: Fs, tmp: string, dst: string, rest: seq<RunOutcome>)
    ensures Retry(Create(fs, tmp), tmp, dst, [FailedWithoutOutput, FailedWithoutOutput] + rest).1 == Crashed(FileNotFoundError)
  {
    var runs := [FailedWithoutOutput, FailedWithoutOutput] + rest;
    var fs1 := Remove(Create(fs, tmp), tmp).value;
    assert runs[1..] == [FailedWithoutOutput] + rest;
    assert !IsFile(fs1, tmp);
  }

  /** The retry loop as evidently intended: after a failed run the temporary
      file is removed only when it exists, so only a failed move can end the
      loop with an exception. */
  function RetryGuarded(fs: Fs, tmp: string, dst: string, runs: seq<RunOutcome>): (Fs, EncodeOutcome)
    decreases |runs|
  {
    if runs == [] then (fs, Retrying)
    else if runs[0] == Succeeded then
      (match Move(Create(fs, tmp), tmp, dst)
       case Ok(fs1) => (fs1, Encoded(dst))
       case Err(e) => (Create(fs, tmp), Crashed(e)))
    else
      var w := if runs[0] == FailedWithOutput then Create(fs, tmp) else fs;
      RetryGuarded(Fs(w.files - {tmp}, w.dirs), tmp, dst, runs[1..])
  }

  /** With the guard, failures of either kind never crash: the loop is still
      retrying when every run failed, and the temporary file is gone. */
  lemma {:induction false} GuardedFailuresRetry(fs: Fs, tmp: string, dst: string, runs: seq<RunOutcome>)
    requires forall i :: 0 <= i < |runs| ==> runs[i] != Succeeded
    requires runs != [] || !IsFile(fs, tmp)
    ensures RetryGuarded(fs, tmp, dst, runs).1 == Retrying
    ensures !IsFile(RetryGuarded(fs, tmp, dst, runs).0, tmp)
    ensures RetryGuarded(fs, tmp, dst, runs).0.dirs == fs.dirs
    decreases |runs|
  {
    if runs != [] {
      var w := if runs[0] == FailedWithOutput then Create(fs, tmp) else fs;
      var fs1 := Fs(w.files - {tmp}, w.dirs);
      if |runs| > 1 {
        assert forall i :: 0 <= i < |runs| - 1 ==> runs[1..][i] == runs[i + 1];
        GuardedFailuresRetry(fs1, tmp, dst, runs[1..]);
      }
    }
  }

  /** With the guard, any sequence of failures followed by a success encodes:
      the output is moved to the destination and the temporary file is gone. */
  lemma {:induction false} GuardedEncodesAfterFailures(fs: Fs, tmp: string, dst: string, runs: seq<RunOutcome>, k: nat)
    requires k < |runs| && runs[k] == Succeeded
    requires forall i :: 0 <= i < k ==> runs[i] != Succeeded
    requires tmp != dst && !IsDir(fs, dst) && ParentExists(fs, dst)
    ensures RetryGuarded(fs, tmp, dst, runs).1 == Encoded(dst)
    ensures IsFile(RetryGuarded(fs, tmp, dst, runs).0, dst) && !IsFile(RetryGuarded(fs, tmp, dst, runs).0, tmp)
    decreases k
  {
    if k > 0 {
      assert runs[0] != Succeeded;
      var w := if runs[0] == FailedWithOutput then Create(fs, tmp) else fs;
      var fs1 := Fs(w.files - {tmp}, w.dirs);
      assert fs1.dirs == fs.dirs;
      assert RetryGuarded(fs, tmp, dst, runs) == RetryGuarded(fs1, tmp, dst, runs[1..]);
      assert forall i :: 0 <= i < k - 1 ==> runs[1..][i] == runs[i + 1];
      GuardedEncodesAfterFailures(fs1, tmp, dst, runs[1..], k - 1);
    } else {
      var c := Create(fs, tmp);
      assert Target(c, tmp, dst) == dst;
      assert Move(c, tmp, dst).Ok?;
      assert RetryGuarded(fs, tmp, dst, runs) == (Move(c, tmp, dst).value, Encoded(dst));
    }
  }

  /** Where the loop as written does not crash, the guarded loop does the
      same: the guard only changes the runs that `os.remove` would reject. */
  lemma {:induction false} GuardedAgreesWithoutCrash(fs: Fs, tmp: string, dst: string, runs: seq<RunOutcome>)
    requires !Retry(fs, tmp, dst, runs).1.Crashed?
    ensures RetryGuarded(fs, tmp, dst, runs) == Retry(fs, tmp, dst, runs)
    decreases |runs|
  {
    if runs != [] && runs[0] != Succeeded {
      var w := if runs[0] == FailedWithOutput then Create(fs, tmp) else fs;
      assert Remove(w, tmp).Ok?;
      GuardedAgreesWithoutCrash(Remove(w, tmp).value, tmp, dst, runs[1..]);
    }
  }
}
