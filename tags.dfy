/** What the tag reader (TinyTag) returns for an audio file, and the track
    identity string built from it. */
module Tags {
  import opened Wrappers
  import opened Text

  /** Durations are non-negative seconds. */
  type Seconds = d: real | d >= 0.0

  /** The tag fields the engine reads; any of the text fields may be absent. */
  datatype Metadata = Metadata(
    album: Option<string>,
    title: Option<string>,
    duration: Seconds,
    track: Option<string>)

  /** Python's `str()` of a tag field, and also what `"{0.album}".format` prints. */
  function Str(field: Option<string>): string {
    match field
    case None => "None"
    case Some(s) => s
  }

  /** The string `"{0.album}:{0.title}:{0.duration:.3f}".format(metadata)`. */
  function Key(m: Metadata): string {
    Str(m.album) + ":" + Str(m.title) + ":" + FormatFixed3(m.duration)
  }

  /** For the same album and title, the key tells two durations apart exactly
      when they differ in the thousandths Python prints (rounded, not cut off). */
  lemma KeySeparatesDurations(m1: Metadata, m2: Metadata)
    requires m1.album == m2.album && m1.title == m2.title
    ensures Key(m1) == Key(m2) <==> Thousandths(m1.duration) == Thousandths(m2.duration)
  {
    var p := Str(m1.album) + ":" + Str(m1.title) + ":";
    assert Key(m1) == p + FormatFixed3(m1.duration);
    assert Key(m2) == p + FormatFixed3(m2.duration);
    if Key(m1) == Key(m2) {
      assert FormatFixed3(m1.duration) == Key(m1)[|p|..];
      assert FormatFixed3(m2.duration) == Key(m2)[|p|..];
    }
    FormatFixed3Injective(m1.duration, m2.duration);
  }

  /** 123.4567 s and 123.4561 s print as "123.457" and "123.456": the key
      rounds to three decimals, so these two do not collide. */
  lemma KeyRoundsDuration(album: Option<string>, title: Option<string>)
    ensures Key(Metadata(album, title, 123.4567, None)) != Key(Metadata(album, title, 123.4561, None))
    ensures FormatFixed3(123.4567) == "123.457"
    ensures FormatFixed3(123.4561) == "123.456"
  {
    FormatRoundsUp();
    FormatRoundsDown();
    KeySeparatesDurations(Metadata(album, title, 123.4567, None), Metadata(album, title, 123.4561, None));
  }

  lemma NatToString123()
    ensures NatToString(123) == "123"
  {
    assert NatToString(12) == "12" by {
      assert NatToString(1) == "1";
    }
  }

  lemma FormatRoundsUp()
    ensures Thousandths(123.4567) == 123457 && FormatFixed3(123.4567) == "123.457"
  {
    assert 123.4567 * 1000.0 == 123456.7;
    assert (123456.7).Floor == 123456;
    assert Thousandths(123.4567) == 123457;
    assert 123457 / 1000 == 123 && 123457 % 1000 == 457;
    NatToString123();
    assert Pad3(457) == "457";
    assert FormatFixed3(123.4567) == NatToString(123) + "." + Pad3(457);
  }

  lemma FormatRoundsDown()
    ensures Thousandths(123.4561) == 123456 && FormatFixed3(123.4561) == "123.456"
  {
    assert 123.4561 * 1000.0 == 123456.1;
    assert (123456.1).Floor == 123456;
    assert Thousandths(123.4561) == 123456;
    assert 123456 / 1000 == 123 && 123456 % 1000 == 456;
    NatToString123();
    assert Pad3(456) == "456";
    assert FormatFixed3(123.4561) == NatToString(123) + "." + Pad3(456);
  }

  /** The separator is not escaped: an album "a:b" with title "c" has the
      same key as album "a" with title "b:c". */
  lemma KeyIgnoresFieldBoundaries(d: Seconds)
    ensures Key(Metadata(Some("a:b"), Some("c"), d, None)) == Key(Metadata(Some("a"), Some("b:c"), d, None))
  {
  }
}
