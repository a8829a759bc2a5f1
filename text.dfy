/** The pieces of Python's `str` and `int` behaviour that the modelled code
    relies on: `str.strip`, `str.replace` of one character, the substring test
    `in`, string ordering, `int(str)`, `str(int)` and the format specifications
    `{:x}`, `{:02d}` and `{:.3f}`. */
module Text {
  import opened Wrappers

  /** Python's `str.isspace` for one character; these are the characters that
      `str.strip()` without an argument removes. */
  predicate IsSpace(c: char) {
    var n := c as int;
    (9 <= n <= 13) || (28 <= n <= 32) || n == 0x85 || n == 0xA0 || n == 0x1680
    || (0x2000 <= n <= 0x200A) || n == 0x2028 || n == 0x2029 || n == 0x202F
    || n == 0x205F || n == 0x3000
  }

  predicate IsAscii(c: char) {
    (c as int) < 128
  }

  predicate AllAscii(s: string) {
    forall i :: 0 <= i < |s| ==> IsAscii(s[i])
  }

  predicate IsDigit(c: char) {
    '0' <= c <= '9'
  }

  /** The argument of `str.strip`: none (whitespace) or a string of characters. */
  datatype StripSet = Whitespace | Chars(cs: set<char>)

  predicate Strips(k: StripSet, c: char) {
    match k
    case Whitespace => IsSpace(c)
    case Chars(cs) => c in cs
  }

  /** `str.lstrip`: the longest suffix of `s` that does not start with a stripped character. */
  function LStrip(s: string, k: StripSet): (r: string)
    ensures |r| <= |s| && r == s[|s| - |r|..]
    ensures r == [] || !Strips(k, r[0])
    ensures forall i :: 0 <= i < |s| - |r| ==> Strips(k, s[i])
  {
    if s != [] && Strips(k, s[0]) then LStrip(s[1..], k) else s
  }

  /** `str.rstrip`: the longest prefix of `s` that does not end with a stripped character. */
  function RStrip(s: string, k: StripSet): (r: string)
    ensures |r| <= |s| && r == s[..|r|]
    ensures r == [] || !Strips(k, r[|r| - 1])
    ensures forall i :: |r| <= i < |s| ==> Strips(k, s[i])
  {
    if s != [] && Strips(k, s[|s| - 1]) then RStrip(s[..|s| - 1], k) else s
  }

  /** `str.strip`: both ends at once. */
  function Strip(s: string, k: StripSet): (r: string)
    ensures r == [] || (!Strips(k, r[0]) && !Strips(k, r[|r| - 1]))
  {
    RStrip(LStrip(s, k), k)
  }

  lemma SuffixMembers(s: string, l: string)
    requires |l| <= |s| && l == s[|s| - |l|..]
    ensures forall x :: x in l ==> x in s
  {
    forall x | x in l
      ensures x in s
    {
      var i :| 0 <= i < |l| && l[i] == x;
      assert s[|s| - |l| + i] == x;
    }
  }

  lemma PrefixMembers(s: string, r: string)
    requires |r| <= |s| && r == s[..|r|]
    ensures forall x :: x in r ==> x in s
  {
    forall x | x in r
      ensures x in s
    {
      var i :| 0 <= i < |r| && r[i] == x;
      assert s[i] == x;
    }
  }

  /** Stripping keeps a contiguous part, so it adds no character. */
  lemma StripSubset(s: string, k: StripSet)
    ensures forall x :: x in Strip(s, k) ==> x in s
  {
    var l := LStrip(s, k);
    SuffixMembers(s, l);
    PrefixMembers(l, RStrip(l, k));
  }

  /** `a` occurs in `b` as one contiguous piece starting at index `o`. */
  predicate InfixAt(a: string, b: string, o: nat) {
    o + |a| <= |b| && b[o..o + |a|] == a
  }

  /** `a` occurs in `b` as one contiguous piece. */
  ghost predicate Infix(a: string, b: string) {
    exists o: nat :: InfixAt(a, b, o)
  }

  /** Cutting stripped characters off the front of `s` keeps a piece that
      starts with a character that is not stripped. */
  lemma InfixOfSuffix(s: string, l: string, k: StripSet, a: string, o: nat)
    requires |l| <= |s| && l == s[|s| - |l|..]
    requires forall i :: 0 <= i < |s| - |l| ==> Strips(k, s[i])
    requires InfixAt(a, s, o) && a != [] && !Strips(k, a[0])
    ensures |s| - |l| <= o && InfixAt(a, l, o - (|s| - |l|))
  {
    var d := |s| - |l|;
    assert s[o] == a[0];
    assert l[o - d..o - d + |a|] == s[o..o + |a|];
  }

  /** Cutting stripped characters off the back of `l` keeps a piece that
      ends with a character that is not stripped. */
  lemma InfixOfPrefix(l: string, r: string, k: StripSet, a: string, p: nat)
    requires |r| <= |l| && r == l[..|r|]
    requires forall i :: |r| <= i < |l| ==> Strips(k, l[i])
    requires InfixAt(a, l, p) && a != [] && !Strips(k, a[|a| - 1])
    ensures InfixAt(a, r, p)
  {
    assert l[p + |a| - 1] == a[|a| - 1];
    assert r[p..p + |a|] == l[p..p + |a|];
  }

  /** Stripping only removes characters at the ends, so a piece of `s` that
      starts and ends with a character that is not stripped survives whole,
      at the offset `p` of the stripped string. */
  lemma StripKeepsInfixAt(s: string, k: StripSet, a: string, o: nat) returns (p: nat)
    requires InfixAt(a, s, o) && a != [] && !Strips(k, a[0]) && !Strips(k, a[|a| - 1])
    ensures InfixAt(a, Strip(s, k), p)
  {
    var l := LStrip(s, k);
    var r := RStrip(l, k);
    InfixOfSuffix(s, l, k, a, o);
    p := o - (|s| - |l|);
    InfixOfPrefix(l, r, k, a, p);
  }

  /** A string whose ends are not stripped is left as it is. */
  lemma StripUnchanged(s: string, k: StripSet)
    requires s == [] || (!Strips(k, s[0]) && !Strips(k, s[|s| - 1]))
    ensures Strip(s, k) == s
  {
  }

  /** `s.replace(c, rep)` for a one-character `c`: every occurrence is replaced. */
  function ReplaceChar(s: string, c: char, rep: string): string {
    if s == [] then []
    else (if s[0] == c then rep else [s[0]]) + ReplaceChar(s[1..], c, rep)
  }

  /** `s.replace(c, "")`: every occurrence is deleted. */
  function DeleteChar(s: string, c: char): (r: string)
    ensures forall i :: 0 <= i < |r| ==> r[i] != c
    ensures forall x :: x in r ==> x in s
  {
    if s == [] then []
    else (if s[0] == c then [] else [s[0]]) + DeleteChar(s[1..], c)
  }

  /** Python's `needle in hay` on two strings. */
  predicate Contains(hay: string, needle: string) {
    needle <= hay || (hay != [] && Contains(hay[1..], needle))
  }

  /** Python's `a <= b` on strings: code-point lexicographic order. */
  predicate LexLe(a: string, b: string) {
    if a == [] then true
    else if b == [] then false
    else if a[0] != b[0] then a[0] < b[0]
    else LexLe(a[1..], b[1..])
  }

  // ----- decimal digits --------------------------------------------------

  function DigitChar(d: nat): (c: char)
    requires d < 10
    ensures IsDigit(c)
  {
    ('0' as int + d) as char
  }

  function DigitValue(c: char): nat
    requires IsDigit(c)
  {
    c as int - '0' as int
  }

  /** `str(n)` for a non-negative integer: decimal, no leading zeros. */
  function NatToString(n: nat): (r: string)
    ensures |r| >= 1
    ensures forall i :: 0 <= i < |r| ==> IsDigit(r[i])
  {
    if n < 10 then [DigitChar(n)] else NatToString(n / 10) + [DigitChar(n % 10)]
  }

  /** The value of a string of decimal digits. */
  function DigitsValue(s: string): nat
    requires forall i :: 0 <= i < |s| ==> IsDigit(s[i])
  {
    if s == [] then 0 else DigitsValue(s[..|s| - 1]) * 10 + DigitValue(s[|s| - 1])
  }

  lemma {:induction false} DigitsValueOfNatToString(n: nat)
    ensures DigitsValue(NatToString(n)) == n
  {
    if n >= 10 {
      var s := NatToString(n);
      assert s[..|s| - 1] == NatToString(n / 10);
      DigitsValueOfNatToString(n / 10);
    }
  }

  lemma NatToStringInjective(a: nat, b: nat)
    ensures NatToString(a) == NatToString(b) <==> a == b
  {
    if NatToString(a) == NatToString(b) {
      DigitsValueOfNatToString(a);
      DigitsValueOfNatToString(b);
    }
  }

  /** `str(i)` for any integer. */
  function IntToString(i: int): string {
    if i < 0 then "-" + NatToString(-i) else NatToString(i)
  }

  /** Digits as `int()` accepts them: decimal digits with single underscores
      between two digits ("1_000" but not "_1", "1_" or "1__0"). */
  predicate WellFormedDigits(d: string) {
    && d != [] && IsDigit(d[0]) && IsDigit(d[|d| - 1])
    && (forall i :: 0 <= i < |d| ==> IsDigit(d[i]) || d[i] == '_')
    && (forall i :: 0 <= i < |d| - 1 && d[i] == '_' ==> IsDigit(d[i + 1]))
  }

  function RemoveUnderscores(d: string): (r: string)
    requires forall i :: 0 <= i < |d| ==> IsDigit(d[i]) || d[i] == '_'
    ensures forall i :: 0 <= i < |r| ==> IsDigit(r[i])
    ensures (forall i :: 0 <= i < |d| ==> IsDigit(d[i])) ==> r == d
  {
    if d == [] then []
    else (if d[0] == '_' then [] else [d[0]]) + RemoveUnderscores(d[1..])
  }

  /** Unsigned digits as `int()` reads them, or `None`. */
  function ParseUnsigned(d: string): (r: Option<nat>) {
    if WellFormedDigits(d) then Some(DigitsValue(RemoveUnderscores(d))) else None
  }

  /** `int(s)` on a string: `None` where Python raises `ValueError`.
      Only ASCII digits are modelled. */
  function ParseInt(s: string): Option<int> {
    ParseSigned(Strip(s, Whitespace))
  }

  /** An optional sign followed by unsigned digits. */
  function ParseSigned(t: string): Option<int> {
    if t != [] && (t[0] == '+' || t[0] == '-') then
      match ParseUnsigned(t[1..])
      case None => None
      case Some(v) => Some(if t[0] == '-' then -(v as int) else v as int)
    else
      match ParseUnsigned(t)
      case None => None
      case Some(v) => Some(v)
  }

  /** The characters `int()` can accept in a string. */
  predicate NumeralChar(c: char) {
    IsDigit(c) || IsSpace(c) || c == '+' || c == '-' || c == '_'
  }

  lemma ParseSignedChars(t: string)
    requires ParseSigned(t).Some?
    ensures forall i :: 0 <= i < |t| ==> NumeralChar(t[i])
  {
    if t != [] && (t[0] == '+' || t[0] == '-') {
      assert WellFormedDigits(t[1..]);
      assert forall i :: 1 <= i < |t| ==> t[i] == t[1..][i - 1];
    } else {
      assert WellFormedDigits(t);
    }
  }

  /** A string `int()` reads holds nothing but digits, signs, underscores and
      whitespace. */
  lemma ParseIntChars(s: string)
    requires ParseInt(s).Some?
    ensures forall i :: 0 <= i < |s| ==> NumeralChar(s[i])
  {
    var l := LStrip(s, Whitespace);
    var r := RStrip(l, Whitespace);
    assert r == Strip(s, Whitespace);
    ParseSignedChars(r);
    var off := |s| - |l|;
    forall i | 0 <= i < |s| ensures NumeralChar(s[i]) {
      if i < off {
        assert Strips(Whitespace, s[i]);
      } else if i - off >= |r| {
        assert s[i] == l[i - off];
        assert Strips(Whitespace, l[i - off]);
      } else {
        assert s[i] == l[i - off] == r[i - off];
      }
    }
  }

  lemma {:induction false} ParseUnsignedOfNatToString(n: nat)
    ensures ParseUnsigned(NatToString(n)) == Some(n)
  {
    var s := NatToString(n);
    assert WellFormedDigits(s);
    assert RemoveUnderscores(s) == s;
    DigitsValueOfNatToString(n);
  }

  lemma ParseSignedOfNegative(n: int)
    requires n > 0
    ensures ParseSigned(IntToString(-n)) == Some(-n)
  {
    var s := IntToString(-n);
    assert s == "-" + NatToString(n);
    assert s[0] == '-' && s[1..] == NatToString(n);
    ParseUnsignedOfNatToString(n);
    ParseSignedMinus(s, n);
  }

  lemma ParseSignedMinus(t: string, v: nat)
    requires t != [] && t[0] == '-' && ParseUnsigned(t[1..]) == Some(v)
    ensures ParseSigned(t) == Some(-(v as int))
  {
  }

  lemma ParseSignedOfNat(n: nat)
    ensures ParseSigned(IntToString(n)) == Some(n)
  {
    var s := IntToString(n);
    assert s == NatToString(n);
    assert s[0] != '+' && s[0] != '-' by {
      assert IsDigit(s[0]);
    }
    ParseUnsignedOfNatToString(n);
  }

  lemma ParseSignedOfIntToString(i: int)
    ensures ParseSigned(IntToString(i)) == Some(i)
  {
    if i < 0 {
      ParseSignedOfNegative(-i);
      assert -(-i) == i;
    } else {
      ParseSignedOfNat(i);
    }
  }

  lemma IntToStringUnstripped(i: int)
    ensures Strip(IntToString(i), Whitespace) == IntToString(i)
  {
    var s := IntToString(i);
    assert !IsSpace(s[0]) && !IsSpace(s[|s| - 1]);
    StripUnchanged(s, Whitespace);
  }

  /** `int(str(i)) == i`. */
  lemma ParseIntOfIntToString(i: int)
    ensures ParseInt(IntToString(i)) == Some(i)
  {
    IntToStringUnstripped(i);
    ParseSignedOfIntToString(i);
  }

  // ----- format specifications ------------------------------------------

  predicate IsLowerHexDigit(c: char) {
    '0' <= c <= '9' || 'a' <= c <= 'f'
  }

  function HexDigit(d: nat): (c: char)
    requires d < 16
    ensures IsLowerHexDigit(c)
  {
    "0123456789abcdef"[d]
  }

  /** `"{:x}".format(n)`: lower-case hexadecimal, no leading zeros. */
  function LowerHex(n: nat): (r: string)
    ensures |r| >= 1
    ensures forall i :: 0 <= i < |r| ==> IsLowerHexDigit(r[i])
  {
    if n < 16 then [HexDigit(n)] else LowerHex(n / 16) + [HexDigit(n % 16)]
  }

  /** `"{:02d}".format(n)`: at least two characters, zero-padded after the sign. */
  function Format02d(n: int): string {
    if 0 <= n < 10 then "0" + NatToString(n) else IntToString(n)
  }

  /** Three digits, zero-padded on the left. */
  function Pad3(n: nat): (r: string)
    requires n < 1000
    ensures |r| == 3 && forall i :: 0 <= i < 3 ==> IsDigit(r[i])
  {
    [DigitChar(n / 100), DigitChar(n / 10 % 10), DigitChar(n % 10)]
  }

  lemma Pad3Injective(a: nat, b: nat)
    requires a < 1000 && b < 1000
    ensures Pad3(a) == Pad3(b) ==> a == b
  {
    if Pad3(a) == Pad3(b) {
      assert a / 100 == b / 100 && a / 10 % 10 == b / 10 % 10 && a % 10 == b % 10 by {
        assert DigitValue(Pad3(a)[0]) == a / 100 && DigitValue(Pad3(b)[0]) == b / 100;
        assert DigitValue(Pad3(a)[1]) == a / 10 % 10 && DigitValue(Pad3(b)[1]) == b / 10 % 10;
        assert DigitValue(Pad3(a)[2]) == a % 10 && DigitValue(Pad3(b)[2]) == b % 10;
      }
      assert a / 10 == b / 10 by {
        assert a / 10 / 10 == a / 100 && b / 10 / 10 == b / 100;
      }
    }
  }

  /** Round to the nearest integer, ties to the even one. */
  function RoundHalfEven(x: real): int {
    var f := x.Floor;
    var frac := x - f as real;
    if frac < 0.5 then f
    else if frac > 0.5 then f + 1
    else if f % 2 == 0 then f
    else f + 1
  }

  /** The number of thousandths `"{:.3f}"` shows for a non-negative value:
      Python rounds the exact value half to even. */
  function Thousandths(d: real): (ms: nat)
    requires d >= 0.0
  {
    RoundHalfEven(d * 1000.0)
  }

  /** `"{:.3f}".format(d)` for a non-negative value. */
  function FormatFixed3(d: real): string
    requires d >= 0.0
  {
    var ms := Thousandths(d);
    NatToString(ms / 1000) + "." + Pad3(ms % 1000)
  }

  /** Two durations print the same to three decimals exactly when they round
      to the same number of thousandths. */
  lemma FormatFixed3Injective(d1: real, d2: real)
    requires d1 >= 0.0 && d2 >= 0.0
    ensures FormatFixed3(d1) == FormatFixed3(d2) <==> Thousandths(d1) == Thousandths(d2)
  {
    var m1, m2 := Thousandths(d1), Thousandths(d2);
    var s1, s2 := FormatFixed3(d1), FormatFixed3(d2);
    if s1 == s2 {
      var q1, q2 := NatToString(m1 / 1000), NatToString(m2 / 1000);
      assert |s1| == |q1| + 4 && |s2| == |q2| + 4;
      assert s1[..|q1|] == q1 && s2[..|q2|] == q2;
      assert s1[|q1| + 1..] == Pad3(m1 % 1000) && s2[|q2| + 1..] == Pad3(m2 % 1000);
      NatToStringInjective(m1 / 1000, m2 / 1000);
      Pad3Injective(m1 % 1000, m2 % 1000);
    }
  }
}
