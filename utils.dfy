/** The helpers of pyMusicSync/utils.py: random names, the path sanitizer,
    the track fingerprint and dictionary lookup with a default. */
module Utils {
  import opened Wrappers
  import opened Text
  import opened Tags

  /** The transliteration table of `unidecode`: ASCII characters pass through,
      every other character is replaced by the table's string for it. */
  type Transliteration = char -> string

  function Unidecode(s: string, table: Transliteration): string {
    if s == [] then []
    else (if IsAscii(s[0]) then [s[0]] else table(s[0])) + Unidecode(s[1..], table)
  }

  lemma {:induction false} UnidecodeAscii(s: string, table: Transliteration)
    requires AllAscii(s)
    ensures Unidecode(s, table) == s
  {
    if s != [] {
      UnidecodeAscii(s[1..], table);
    }
  }

  /** The random source: the index `random.choice` draws for each position. */
  type RandomSource = nat -> nat

  /** `genRandomString(charset, length)`: `length` characters, each drawn from
      `charset`; `random.choice` on an empty charset raises IndexError. */
  function GenRandomString(charset: string, length: nat, rand: RandomSource): (r: Result<string>)
    ensures r.Ok? <==> (|charset| > 0 || length == 0)
    ensures r.Ok? ==> |r.value| == length && forall i :: 0 <= i < length ==> r.value[i] in charset
  {
    if length == 0 then Ok([])
    else if |charset| == 0 then Err(IndexError)
    else Ok(seq(length, i requires 0 <= i < length => charset[rand(i) % |charset|]))
  }

  const HexCharset: string := "0123456789ABCDEF"

  // ----- pathSanitize ----------------------------------------------------

  /** The characters `pathSanitize` escapes, in the order it escapes them. */
  const IllegalChars: string := "/?<>:*|\"\\^)\0\t"

  /** The characters a placeholder is made of; none of them is illegal. */
  predicate PlaceholderChar(c: char) {
    c == '_' || c == 'x' || IsLowerHexDigit(c)
  }

  lemma PlaceholderCharsLegal(c: char)
    requires PlaceholderChar(c)
    ensures c !in IllegalChars
  {
  }

  /** The placeholder `"_x{:x}_".format(ord(c))`. */
  function Escape(c: char): (r: string)
    ensures forall i :: 0 <= i < |r| ==> PlaceholderChar(r[i])
  {
    "_x" + LowerHex(c as int) + "_"
  }

  lemma EscapeExamples()
    ensures Escape('/') == "_x2f_" && Escape('\t') == "_x9_" && Escape('\0') == "_x0_"
    ensures Escape(')') == "_x29_" && Escape('\\') == "_x5c_"
  {
    assert LowerHex(47) == "2f" by { assert LowerHex(2) == "2"; }
    assert LowerHex(41) == "29" by { assert LowerHex(2) == "2"; }
    assert LowerHex(92) == "5c" by { assert LowerHex(5) == "5"; }
    assert LowerHex(9) == "9";
    assert LowerHex(0) == "0";
  }

  /** `s` with every character that occurs in `cs` replaced by its placeholder. */
  function EscapeSome(s: string, cs: string): string {
    if s == [] then []
    else (if s[0] in cs then Escape(s[0]) else [s[0]]) + EscapeSome(s[1..], cs)
  }

  lemma {:induction false} EscapeNone(s: string)
    ensures EscapeSome(s, []) == s
  {
    if s != [] {
      EscapeNone(s[1..]);
    }
  }

  /** `s` with every illegal character replaced by its placeholder. */
  function EscapeAll(s: string): string {
    EscapeSome(s, IllegalChars)
  }

  lemma StringAssoc(x: string, y: string, z: string)
    ensures x + (y + z) == (x + y) + z
  {
  }

  lemma {:induction false} ReplaceCharAppend(a: string, b: string, c: char, rep: string)
    ensures ReplaceChar(a + b, c, rep) == ReplaceChar(a, c, rep) + ReplaceChar(b, c, rep)
  {
    if a != [] {
      var h := if a[0] == c then rep else [a[0]];
      assert (a + b)[0] == a[0];
      assert (a + b)[1..] == a[1..] + b;
      ReplaceCharAppend(a[1..], b, c, rep);
      assert ReplaceChar(a + b, c, rep) == h + ReplaceChar(a[1..] + b, c, rep);
      assert ReplaceChar(a, c, rep) == h + ReplaceChar(a[1..], c, rep);
      StringAssoc(h, ReplaceChar(a[1..], c, rep), ReplaceChar(b, c, rep));
    } else {
      assert a + b == b;
    }
  }

  lemma {:induction false} ReplaceCharAbsent(a: string, c: char, rep: string)
    requires c !in a
    ensures ReplaceChar(a, c, rep) == a
  {
    if a != [] {
      ReplaceCharAbsent(a[1..], c, rep);
    }
  }

  /** One turn of the loop over the illegal characters: replacing `c` in a
      string whose earlier characters are already escaped escapes `c` too,
      since no placeholder contains an illegal character. */
  lemma {:induction false} EscapeStep(s: string, cs: string, c: char)
    requires !PlaceholderChar(c)
    ensures ReplaceChar(EscapeSome(s, cs), c, Escape(c)) == EscapeSome(s, cs + [c])
  {
    if s != [] {
      var head := if s[0] in cs then Escape(s[0]) else [s[0]];
      assert EscapeSome(s, cs) == head + EscapeSome(s[1..], cs);
      ReplaceCharAppend(head, EscapeSome(s[1..], cs), c, Escape(c));
      EscapeStep(s[1..], cs, c);
      if s[0] in cs {
        assert forall i :: 0 <= i < |head| ==> PlaceholderChar(head[i]);
        assert c !in head;
        ReplaceCharAbsent(head, c, Escape(c));
      }
    }
  }

  lemma {:induction false} EscapeAllLegal(s: string)
    ensures forall i :: 0 <= i < |EscapeAll(s)| ==> EscapeAll(s)[i] !in IllegalChars
  {
    if s != [] {
      EscapeAllLegal(s[1..]);
      var head := if s[0] in IllegalChars then Escape(s[0]) else [s[0]];
      assert EscapeAll(s) == head + EscapeAll(s[1..]);
      forall i | 0 <= i < |head| ensures head[i] !in IllegalChars {
        if s[0] in IllegalChars {
          PlaceholderCharsLegal(head[i]);
        }
      }
    }
  }

  lemma {:induction false} EscapeAllUnchanged(s: string)
    requires forall i :: 0 <= i < |s| ==> s[i] !in IllegalChars
    ensures EscapeAll(s) == s
  {
    if s != [] {
      EscapeAllUnchanged(s[1..]);
    }
  }

  /** `pathSanitize(name)` for a present name, as one expression: escape,
      strip whitespace, strip dots, strip whitespace again. */
  function SanitizeName(name: string, table: Transliteration): string {
    var escaped := EscapeAll(Unidecode(name, table));
    Strip(Strip(Strip(escaped, Whitespace), Chars({'.'})), Whitespace)
  }

  /** The loop `for ch in ILLEGAL_CHAR: result = result.replace(ch, ...)`:
      one pass per illegal character, which together escape them all. */
  method EscapeIllegal(s: string) returns (r: string)
    ensures r == EscapeAll(s)
  {
    r := s;
    EscapeNone(s);
    for i := 0 to |IllegalChars|
      invariant r == EscapeSome(s, IllegalChars[..i])
    {
      assert !PlaceholderChar(IllegalChars[i]);
      EscapeStep(s, IllegalChars[..i], IllegalChars[i]);
      assert IllegalChars[..i + 1] == IllegalChars[..i] + [IllegalChars[i]];
      r := ReplaceChar(r, IllegalChars[i], Escape(IllegalChars[i]));
    }
    assert IllegalChars[..|IllegalChars|] == IllegalChars;
  }

  /** Stripping keeps a contiguous part, so what was absent stays absent. */
  lemma StripKeepsAbsent(s: string, k: StripSet, bad: string)
    requires forall i :: 0 <= i < |s| ==> s[i] !in bad
    ensures forall i :: 0 <= i < |Strip(s, k)| ==> Strip(s, k)[i] !in bad
  {
    var r := Strip(s, k);
    StripSubset(s, k);
    forall i | 0 <= i < |r|
      ensures r[i] !in bad
    {
      assert r[i] in r;
      var j :| 0 <= j < |s| && s[j] == r[i];
    }
  }

  /** No sanitized name contains an illegal character. */
  lemma SanitizeNameLegal(name: string, table: Transliteration)
    ensures forall i :: 0 <= i < |SanitizeName(name, table)| ==> SanitizeName(name, table)[i] !in IllegalChars
  {
    var e := EscapeAll(Unidecode(name, table));
    EscapeAllLegal(Unidecode(name, table));
    StripKeepsAbsent(e, Whitespace, IllegalChars);
    var e1 := Strip(e, Whitespace);
    StripKeepsAbsent(e1, Chars({'.'}), IllegalChars);
    StripKeepsAbsent(Strip(e1, Chars({'.'})), Whitespace, IllegalChars);
  }

  lemma HexNotSpace(c: char)
    requires c in HexCharset
    ensures !IsSpace(c)
  {
  }

  /** `pathSanitize(name)`: a random five-digit hexadecimal name for an absent
      name; otherwise the transliterated name with every illegal character
      escaped as "_x<hex>_" and its ends stripped as `SanitizeName` says. */
  method PathSanitize(name: Option<string>, table: Transliteration, rand: RandomSource) returns (r: string)
    ensures name.None? ==> |r| == 5 && forall i :: 0 <= i < 5 ==> r[i] in HexCharset
    ensures name.Some? ==> r == SanitizeName(name.value, table)
    ensures name.Some? ==> forall i :: 0 <= i < |r| ==> r[i] !in IllegalChars
    ensures r == [] || (!IsSpace(r[0]) && !IsSpace(r[|r| - 1]))
  {
    if name.None? {
      var g := GenRandomString(HexCharset, 5, rand);
      r := g.value;
      HexNotSpace(r[0]);
      HexNotSpace(r[4]);
      return;
    }
    r := Unidecode(name.value, table);
    r := EscapeIllegal(r);
    r := Strip(r, Whitespace);
    r := Strip(r, Chars({'.'}));
    r := Strip(r, Whitespace);
    SanitizeNameLegal(name.value, table);
  }

  /** The three strips of `pathSanitize`, applied to a string holding `a` at
      offset `o`, keep `a` when neither of its ends is stripped. */
  lemma ThreeStripsKeep(s: string, a: string, o: nat)
    requires InfixAt(a, s, o) && a != []
    requires !Strips(Whitespace, a[0]) && !Strips(Whitespace, a[|a| - 1])
    requires !Strips(Chars({'.'}), a[0]) && !Strips(Chars({'.'}), a[|a| - 1])
    ensures Infix(a, Strip(Strip(Strip(s, Whitespace), Chars({'.'})), Whitespace))
  {
    var s1 := Strip(s, Whitespace);
    var s2 := Strip(s1, Chars({'.'}));
    var p1 := StripKeepsInfixAt(s, Whitespace, a, o);
    var p2 := StripKeepsInfixAt(s1, Chars({'.'}), a, p1);
    var p3 := StripKeepsInfixAt(s2, Whitespace, a, p2);
    assert InfixAt(a, Strip(s2, Whitespace), p3);
  }

  /** The three strips of `pathSanitize` keep a piece that starts and ends
      with a character that is neither whitespace nor a dot. */
  lemma StripsKeepInfix(s: string, i: nat, m: nat)
    requires i <= m < |s|
    requires !IsSpace(s[i]) && s[i] != '.' && !IsSpace(s[m]) && s[m] != '.'
    ensures Infix(s[i..m + 1], Strip(Strip(Strip(s, Whitespace), Chars({'.'})), Whitespace))
  {
    var a := s[i..m + 1];
    assert a[0] == s[i] && a[|a| - 1] == s[m];
    assert InfixAt(a, s, i);
    ThreeStripsKeep(s, a, i);
  }

  /** Only the ends of a name are stripped: a stretch of the escaped name
      that starts and ends with a character that is neither whitespace nor a
      dot comes through whole (so "x. ." keeps its inner "x."). */
  lemma SanitizeKeepsInner(name: string, table: Transliteration, i: nat, m: nat)
    requires i <= m < |EscapeAll(Unidecode(name, table))|
    requires var s := EscapeAll(Unidecode(name, table));
      !IsSpace(s[i]) && s[i] != '.' && !IsSpace(s[m]) && s[m] != '.'
    ensures Infix(EscapeAll(Unidecode(name, table))[i..m + 1], SanitizeName(name, table))
  {
    StripsKeepInfix(EscapeAll(Unidecode(name, table)), i, m);
  }

  /** An ASCII name without illegal characters whose ends are neither
      whitespace nor dots comes back unchanged. */
  lemma SanitizeUnchanged(s: string, table: Transliteration)
    requires AllAscii(s)
    requires forall i :: 0 <= i < |s| ==> s[i] !in IllegalChars
    requires s == [] || (!IsSpace(s[0]) && s[0] != '.' && !IsSpace(s[|s| - 1]) && s[|s| - 1] != '.')
    ensures SanitizeName(s, table) == s
  {
    UnidecodeAscii(s, table);
    EscapeAllUnchanged(s);
    StripUnchanged(s, Whitespace);
    StripUnchanged(s, Chars({'.'}));
  }

  // ----- identity and configuration lookup -------------------------------

  /** The hash function (md5 as a hex digest). */
  type Hash = string -> string

  /** `genID(metadata)`: the digest of the key string and of nothing else. */
  function GenId(m: Metadata, md5: Hash): string {
    md5(Key(m))
  }

  /** `getKey(dictionary, key, raiseCheck, default)`: the value when the key is
      present; otherwise an exception when `raiseCheck` is set and the default
      when it is not. */
  function GetKey<V>(d: map<string, V>, key: string, raiseCheck: bool, default: V): (r: Result<V>)
    ensures key in d ==> r == Ok(d[key])
    ensures key !in d && raiseCheck ==> r == Err(MissingKey(key))
    ensures key !in d && !raiseCheck ==> r == Ok(default)
  {
    if key in d then Ok(d[key])
    else if raiseCheck then Err(MissingKey(key))
    else Ok(default)
  }

  /** The loop `for key, default in OPTIONAL_OPTIONS.items(): setattr(self,
      key, getKey(config, key, default=default))`: every option gets the
      configured value when there is one and its default otherwise. */
  method ReadOptions<V>(config: map<string, V>, options: map<string, V>) returns (attrs: map<string, V>)
    ensures attrs.Keys == options.Keys
    ensures forall k :: k in options ==> attrs[k] == if k in config then config[k] else options[k]
  {
    attrs := map[];
    var rest := options.Keys;
    while rest != {}
      invariant rest <= options.Keys
      invariant attrs.Keys == options.Keys - rest
      invariant forall k :: k in attrs ==> attrs[k] == if k in config then config[k] else options[k]
      decreases |rest|
    {
      var key :| key in rest;
      var v := GetKey(config, key, false, options[key]);
      attrs := attrs[key := v.value];
      rest := rest - {key};
    }
  }
}
