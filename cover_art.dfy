/** pyMusicSync/cover_art.py: the cover-art settings and the choice of what
    `copy_cover_art` does with an image. The resizing itself (PIL, waifu2x)
    is not modelled; the image's size is an input. */
module CoverArt {
  import opened Wrappers
  import opened Paths
  import opened Utils

  /** A JSON configuration value as the options hold it. Python's `bool` is an
      `int`, so `True >= 720` compares 1 with 720. */
  datatype ConfigValue = CBool(b: bool) | CInt(i: int) | CStr(s: string)

  /** `UpscaleSetting.OPTIONAL_OPTIONS`. */
  const UpscaleDefaults: map<string, ConfigValue> := map[
    "enabled" := CBool(false), "engine" := CStr("PIL"), "targetHeight" := CInt(720),
    "targetWidth" := CInt(1280), "ignoreIfLarger" := CBool(false)]

  /** The resize function `self.upscale` refers to. */
  datatype Engine = Waifu2xResize | PILResize

  datatype UpscaleSetting = UpscaleSetting(
    enabled: ConfigValue, engine: ConfigValue, targetHeight: ConfigValue,
    targetWidth: ConfigValue, ignoreIfLarger: ConfigValue, upscale: Engine)

  /** "waifu2x" selects waifu2x; "PIL" and every other value fall back to PIL. */
  function SelectEngine(engine: ConfigValue): (e: Engine)
    ensures e == Waifu2xResize <==> engine == CStr("waifu2x")
  {
    if engine == CStr("waifu2x") then Waifu2xResize else PILResize
  }

  /** `UpscaleSetting(config)` as a specification. */
  function SettingOf(config: map<string, ConfigValue>): UpscaleSetting {
    var option := (key: string) requires key in UpscaleDefaults => if key in config then config[key] else UpscaleDefaults[key];
    UpscaleSetting(option("enabled"), option("engine"), option("targetHeight"),
                   option("targetWidth"), option("ignoreIfLarger"), SelectEngine(option("engine")))
  }

  /** `UpscaleSetting(config)`: the `setattr` loop and the engine selection. */
  method NewUpscaleSetting(config: map<string, ConfigValue>) returns (s: UpscaleSetting)
    ensures s == SettingOf(config)
  {
    var attrs := ReadOptions(config, UpscaleDefaults);
    var upscale: Engine;
    if attrs["engine"] == CStr("waifu2x") {
      upscale := Waifu2xResize;
    } else if attrs["engine"] == CStr("PIL") {
      upscale := PILResize;
    } else {
      upscale := PILResize;
    }
    s := UpscaleSetting(attrs["enabled"], attrs["engine"], attrs["targetHeight"],
                        attrs["targetWidth"], attrs["ignoreIfLarger"], upscale);
  }

  /** The defaults: disabled, PIL, 1280x720, larger images downscaled. */
  lemma DefaultSetting()
    ensures SettingOf(map[]) == UpscaleSetting(CBool(false), CStr("PIL"), CInt(720), CInt(1280), CBool(false), PILResize)
  {
  }

  /** `getattr(self, key)` for an optional option. */
  function Attr(s: UpscaleSetting, key: string): ConfigValue
    requires key in UpscaleDefaults
  {
    if key == "enabled" then s.enabled
    else if key == "engine" then s.engine
    else if key == "targetHeight" then s.targetHeight
    else if key == "targetWidth" then s.targetWidth
    else s.ignoreIfLarger
  }

  /** The dictionary `toDict()` returns. */
  function SettingDict(s: UpscaleSetting): map<string, ConfigValue> {
    map["enabled" := s.enabled, "engine" := s.engine, "targetHeight" := s.targetHeight,
        "targetWidth" := s.targetWidth, "ignoreIfLarger" := s.ignoreIfLarger]
  }

  /** `toDict()`: the loop over the option names. */
  method ToDict(s: UpscaleSetting) returns (d: map<string, ConfigValue>)
    ensures d == SettingDict(s)
  {
    d := map[];
    var rest := UpscaleDefaults.Keys;
    while rest != {}
      invariant rest <= UpscaleDefaults.Keys
      invariant d.Keys == UpscaleDefaults.Keys - rest
      invariant forall k :: k in d ==> d[k] == Attr(s, k)
      decreases |rest|
    {
      var key :| key in rest;
      d := d[key := Attr(s, key)];
      rest := rest - {key};
    }
    SettingDictOfAttrs(s, d);
  }

  /** A dictionary holding every option name, each mapped to its attribute, is `SettingDict`. */
  lemma SettingDictOfAttrs(s: UpscaleSetting, d: map<string, ConfigValue>)
    requires d.Keys == UpscaleDefaults.Keys
    requires forall k :: k in d ==> d[k] == Attr(s, k)
    ensures d == SettingDict(s)
  {
    var e := SettingDict(s);
    assert d.Keys == e.Keys;
    forall k | k in d
      ensures d[k] == e[k]
    {
    }
  }

  /** Reading back what `toDict` wrote gives the same settings, engine included. */
  lemma ToDictRoundTrip(config: map<string, ConfigValue>)
    ensures SettingOf(SettingDict(SettingOf(config))) == SettingOf(config)
  {
  }

  /** Python's `n >= v` for an image dimension and an option value. */
  function AtLeast(n: int, v: ConfigValue): (r: Result<bool>)
    ensures r.Err? <==> v.CStr?
    ensures v.CInt? ==> r == Ok(n >= v.i)
  {
    match v
    case CInt(i) => Ok(n >= i)
    case CBool(b) => Ok(n >= if b then 1 else 0)
    case CStr(_) => Err(TypeError)
  }

  /** Python's truth value of an option. */
  predicate Truthy(v: ConfigValue) {
    match v
    case CBool(b) => b
    case CInt(i) => i != 0
    case CStr(s) => s != ""
  }

  /** What `copy_cover_art` does. */
  datatype CoverAction =
    | Skip                                // the image does not open
    | CopyAsIs(to: string)                // `shutil.copy(src, dst)`
    | Downscale(to: string)               // PIL resize, then copy to dst/cover.jpg
    | Upscale(engine: Engine, to: string) // `setting.upscale`, then copy to dst/cover.jpg

  /** `copy_cover_art(src, dst, setting)` for an image of the given size, or
      `None` when `Image.open` fails. `or` short-circuits, so the height is
      not compared once the width is large enough; `enabled` is never read. */
  function CopyCoverArt(size: Option<(int, int)>, dst: string, setting: UpscaleSetting): Result<CoverAction> {
    match size
    case None => Ok(Skip)
    case Some((width, height)) =>
      var wide :- AtLeast(width, setting.targetWidth);
      var large :- if wide then Ok(true) else AtLeast(height, setting.targetHeight);
      if large then
        if Truthy(setting.ignoreIfLarger) then Ok(CopyAsIs(dst)) else Ok(Downscale(Join(dst, "cover.jpg")))
      else Ok(Upscale(setting.upscale, Join(dst, "cover.jpg")))
  }

  /** With integer targets: an image at least as wide or as tall as the target
      is copied verbatim when `ignoreIfLarger` is set and downscaled to
      dst/cover.jpg otherwise; a smaller one is upscaled with the configured
      engine to dst/cover.jpg; an unreadable one is skipped. */
  lemma CopyCoverArtBranches(size: Option<(int, int)>, dst: string, setting: UpscaleSetting)
    requires setting.targetWidth.CInt? && setting.targetHeight.CInt?
    ensures var r := CopyCoverArt(size, dst, setting);
      && (size.None? ==> r == Ok(Skip))
      && (size.Some? ==>
            var (w, h) := size.value;
            var large := w >= setting.targetWidth.i || h >= setting.targetHeight.i;
            && (large && Truthy(setting.ignoreIfLarger) ==> r == Ok(CopyAsIs(dst)))
            && (large && !Truthy(setting.ignoreIfLarger) ==> r == Ok(Downscale(Join(dst, "cover.jpg"))))
            && (!large ==> r == Ok(Upscale(setting.upscale, Join(dst, "cover.jpg")))))
  {
  }

  /** The setting `enabled` makes no difference to what happens. */
  lemma EnabledIsIgnored(size: Option<(int, int)>, dst: string, setting: UpscaleSetting, enabled: ConfigValue)
    ensures CopyCoverArt(size, dst, setting.(enabled := enabled)) == CopyCoverArt(size, dst, setting)
  {
  }

  /** A string target width raises TypeError, but a wide enough image never
      reaches a string target height. */
  lemma StringTargets(width: int, height: int, dst: string, setting: UpscaleSetting)
    requires setting.targetHeight.CStr?
    ensures setting.targetWidth.CStr? ==> CopyCoverArt(Some((width, height)), dst, setting) == Err(TypeError)
    ensures setting.targetWidth.CInt? && width >= setting.targetWidth.i ==> CopyCoverArt(Some((width, height)), dst, setting).Ok?
    ensures setting.targetWidth.CInt? && width < setting.targetWidth.i ==> CopyCoverArt(Some((width, height)), dst, setting) == Err(TypeError)
  {
  }
}
