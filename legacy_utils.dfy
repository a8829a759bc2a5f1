/** The helpers of the older utils.py: the FAT32 sanitizer, which deletes the
    characters FAT32 forbids instead of escaping them. Its `genID` and
    `genRandomString` are the same as `Utils.GenId` and `Utils.GenRandomString`. */
module LegacyUtils {
  import opened Wrappers
  import opened Text
  import opened Utils

  /** The character class `'[' + re.escape("/?<>\:*|\"\\^") + ']'`; the `\:`
      in the Python literal is a backslash followed by a colon, so the class
      holds these ten characters. */
  predicate Fat32Forbidden(c: char) {
    c == '/' || c == '?' || c == '<' || c == '>' || c == '\\' || c == ':'
    || c == '*' || c == '|' || c == '"' || c == '^'
  }

  /** `re.sub(class, '', s)`: every forbidden character deleted in one pass. */
  function DeleteForbidden(s: string): (r: string)
    ensures forall i :: 0 <= i < |r| ==> !Fat32Forbidden(r[i])
    ensures forall x :: x in r ==> x in s
  {
    if s == [] then []
    else (if Fat32Forbidden(s[0]) then [] else [s[0]]) + DeleteForbidden(s[1..])
  }

  lemma {:induction false} DeleteForbiddenUnchanged(s: string)
    requires forall i :: 0 <= i < |s| ==> !Fat32Forbidden(s[i])
    ensures DeleteForbidden(s) == s
  {
    if s != [] {
      DeleteForbiddenUnchanged(s[1..]);
    }
  }

  lemma {:induction false} DeleteCharAppend(a: string, b: string, c: char)
    ensures DeleteChar(a + b, c) == DeleteChar(a, c) + DeleteChar(b, c)
  {
    if a == [] {
      assert a + b == b;
    } else {
      assert (a + b)[0] == a[0];
      assert (a + b)[1..] == a[1..] + b;
      DeleteCharAppend(a[1..], b, c);
    }
  }

  lemma {:induction false} DeleteCharUnchanged(s: string, c: char)
    requires c !in s
    ensures DeleteChar(s, c) == s
  {
    if s != [] {
      DeleteCharUnchanged(s[1..], c);
    }
  }

  /** Deleting `c` from a string that neither starts nor ends with `c` keeps
      its first and last characters. */
  lemma DeleteCharKeepsEnds(s: string, c: char)
    requires s != [] && s[0] != c && s[|s| - 1] != c
    ensures var r := DeleteChar(s, c); r != [] && r[0] == s[0] && r[|r| - 1] == s[|s| - 1]
  {
    var last := s[|s| - 1];
    assert s == s[..|s| - 1] + [last];
    DeleteCharAppend(s[..|s| - 1], [last], c);
    assert DeleteChar([last], c) == [last];
  }

  /** The body of `FAT32Santize` for a present name: transliterate, delete the
      forbidden characters, strip whitespace, delete tabs. */
  function Fat32Name(name: string, table: Transliteration): (r: string)
    ensures forall i :: 0 <= i < |r| ==> !Fat32Forbidden(r[i]) && r[i] != '\t'
    ensures r == [] || (!IsSpace(r[0]) && !IsSpace(r[|r| - 1]))
    ensures forall x :: x in r ==> x in Unidecode(name, table)
  {
    var u := Unidecode(name, table);
    var deleted := DeleteForbidden(u);
    var stripped := Strip(deleted, Whitespace);
    assert forall x :: x in stripped ==> !Fat32Forbidden(x) && x in u by {
      StripSubset(deleted, Whitespace);
      forall x | x in stripped
        ensures !Fat32Forbidden(x) && x in u
      {
        var i :| 0 <= i < |deleted| && deleted[i] == x;
      }
    }
    DeleteTabKeeps(stripped, u);
    DeleteChar(stripped, '\t')
  }

  /** Deleting tabs from a stripped, cleaned string keeps it clean and stripped. */
  lemma DeleteTabKeeps(s: string, u: string)
    requires forall x :: x in s ==> !Fat32Forbidden(x) && x in u
    requires s == [] || (!IsSpace(s[0]) && !IsSpace(s[|s| - 1]))
    ensures var r := DeleteChar(s, '\t');
      && (forall i :: 0 <= i < |r| ==> !Fat32Forbidden(r[i]) && r[i] != '\t')
      && (r == [] || (!IsSpace(r[0]) && !IsSpace(r[|r| - 1])))
      && (forall x :: x in r ==> x in u)
  {
    var r := DeleteChar(s, '\t');
    if s != [] {
      assert IsSpace('\t');
      DeleteCharKeepsEnds(s, '\t');
    }
    forall i | 0 <= i < |r|
      ensures !Fat32Forbidden(r[i]) && r[i] in u
    {
      assert r[i] in r;
    }
  }

  /** `FAT32Santize(name)`: five random hexadecimal digits for an absent name,
      the sanitized name otherwise. */
  function Fat32Sanitize(name: Option<string>, table: Transliteration, rand: RandomSource): (r: string)
    ensures name.None? ==> |r| == 5 && forall i :: 0 <= i < 5 ==> r[i] in HexCharset
    ensures name.Some? ==> r == Fat32Name(name.value, table)
  {
    match name
    case None => GenRandomString(HexCharset, 5, rand).value
    case Some(s) => Fat32Name(s, table)
  }

  /** A clean ASCII name (no forbidden character, no tab, no whitespace at
      either end) comes back unchanged. */
  lemma Fat32Unchanged(s: string, table: Transliteration)
    requires AllAscii(s)
    requires forall i :: 0 <= i < |s| ==> !Fat32Forbidden(s[i]) && s[i] != '\t'
    requires s == [] || (!IsSpace(s[0]) && !IsSpace(s[|s| - 1]))
    ensures Fat32Name(s, table) == s
  {
    UnidecodeAscii(s, table);
    DeleteForbiddenUnchanged(s);
    StripUnchanged(s, Whitespace);
    DeleteCharUnchanged(s, '\t');
  }

  /** On ASCII input the sanitizer is idempotent: its output is clean ASCII. */
  lemma Fat32Idempotent(s: string, table: Transliteration)
    requires AllAscii(s)
    ensures Fat32Name(Fat32Name(s, table), table) == Fat32Name(s, table)
  {
    UnidecodeAscii(s, table);
    var r := Fat32Name(s, table);
    assert AllAscii(r) by {
      forall i | 0 <= i < |r| ensures IsAscii(r[i]) {
        assert r[i] in r;
      }
    }
    Fat32Unchanged(r, table);
  }
}
