/**
 * String helpers with JavaScript's meaning: `toLowerCase` (on the ASCII range),
 * `includes`, `trim`, the whitespace class `\s`, `String(n)` for integers,
 * and the UTF-16 view of a string.
 *
 * A `string` here is a sequence of Unicode scalar values, one `char` each. A
 * JavaScript string is the UTF-16 encoding of such a sequence: a character
 * outside the Basic Multilingual Plane is two code units (a surrogate pair).
 * `length` and `<` work on code units, so they are stated on `Utf16` below;
 * `includes`, `trim`, `toLowerCase` on ASCII and the regular expressions used
 * here give the same answers on either view.
 */
module Text {

  /** `c.toLowerCase()` on ASCII: 'A'..'Z' map to 'a'..'z', every other character is kept. */
  function LowerChar(c: char): (r: char)
    ensures 'A' <= c <= 'Z' ==> r as int == c as int + 32
    ensures !('A' <= c <= 'Z') ==> r == c
    ensures !('A' <= r <= 'Z')
  {
    if 'A' <= c <= 'Z' then (c as int + 32) as char else c
  }

  /** `s.toLowerCase()`, character by character. */
  function Lower(s: string): (r: string)
    ensures |r| == |s|
    ensures forall i :: 0 <= i < |s| ==> r[i] == LowerChar(s[i])
  {
    if s == [] then [] else [LowerChar(s[0])] + Lower(s[1..])
  }

  lemma {:induction false} LowerIdempotent(s: string)
    ensures Lower(Lower(s)) == Lower(s)
  {
    var l := Lower(s);
    var ll := Lower(l);
    assert forall i :: 0 <= i < |s| ==> ll[i] == LowerChar(LowerChar(s[i])) == l[i];
  }

  /** `n` is a prefix of `h`. */
  predicate StartsWith(h: string, n: string) {
    |n| <= |h| && h[..|n|] == n
  }

  /** `h.includes(n)`: `n` occurs in `h` at some position. */
  predicate Contains(h: string, n: string)
    decreases |h|
  {
    StartsWith(h, n) || (h != [] && Contains(h[1..], n))
  }

  /** The recursive test agrees with "there is a position where `n` occurs". */
  lemma ContainsAt(h: string, n: string)
    ensures Contains(h, n) <==> exists i :: 0 <= i <= |h| - |n| && OccursAt(h, n, i)
  {
    if Contains(h, n) {
      ContainedOccurs(h, n);
    }
    if exists i :: 0 <= i <= |h| - |n| && OccursAt(h, n, i) {
      var i :| 0 <= i <= |h| - |n| && OccursAt(h, n, i);
      OccursContained(h, n, i);
    }
  }

  lemma {:induction false} ContainedOccurs(h: string, n: string)
    requires Contains(h, n)
    ensures exists i :: 0 <= i <= |h| - |n| && OccursAt(h, n, i)
    decreases |h|
  {
    if StartsWith(h, n) {
      assert OccursAt(h, n, 0);
    } else {
      ContainedOccurs(h[1..], n);
      var i :| 0 <= i <= |h[1..]| - |n| && OccursAt(h[1..], n, i);
      assert h[1..][i..i + |n|] == h[i + 1..i + 1 + |n|];
      assert OccursAt(h, n, i + 1);
    }
  }

  lemma {:induction false} OccursContained(h: string, n: string, i: int)
    requires 0 <= i <= |h| - |n| && OccursAt(h, n, i)
    ensures Contains(h, n)
    decreases i
  {
    if i == 0 {
      assert StartsWith(h, n);
    } else {
      assert h[1..][i - 1..i - 1 + |n|] == h[i..i + |n|];
      OccursContained(h[1..], n, i - 1);
    }
  }

  predicate OccursAt(h: string, n: string, i: int)
    requires 0 <= i <= |h| - |n|
  {
    h[i..i + |n|] == n
  }

  /** `"".includes` is always true: the empty needle occurs everywhere. */
  lemma EmptyContained(h: string)
    ensures Contains(h, "")
  {
    assert StartsWith(h, "");
  }

  /** The whitespace that `trim` removes and that the regex class `\s` matches
      (ECMAScript WhiteSpace and LineTerminator). */
  predicate IsSpace(c: char) {
    var k := c as int;
    k == 0x09 || k == 0x0A || k == 0x0B || k == 0x0C || k == 0x0D || k == 0x20
    || k == 0xA0 || k == 0x1680 || (0x2000 <= k <= 0x200A)
    || k == 0x2028 || k == 0x2029 || k == 0x202F || k == 0x205F
    || k == 0x3000 || k == 0xFEFF
  }

  function TrimStart(s: string): (r: string)
    ensures |r| <= |s| && r == s[|s| - |r|..]
    ensures r == [] || !IsSpace(r[0])
    ensures forall i :: 0 <= i < |s| - |r| ==> IsSpace(s[i])
  {
    if s != [] && IsSpace(s[0]) then TrimStart(s[1..]) else s
  }

  function TrimEnd(s: string): (r: string)
    ensures |r| <= |s| && r == s[..|r|]
    ensures r == [] || !IsSpace(r[|r| - 1])
    ensures forall i :: |r| <= i < |s| ==> IsSpace(s[i])
  {
    if s != [] && IsSpace(s[|s| - 1]) then TrimEnd(s[..|s| - 1]) else s
  }

  /** `s.trim()`. */
  function Trim(s: string): string {
    TrimEnd(TrimStart(s))
  }

  /** Trimming leaves nothing exactly when every character is whitespace. */
  lemma TrimEmpty(s: string)
    ensures Trim(s) == [] <==> forall i :: 0 <= i < |s| ==> IsSpace(s[i])
  {
  }

  function DigitChar(d: nat): (c: char)
    requires d < 10
    ensures '0' <= c <= '9'
  {
    ('0' as int + d) as char
  }

  predicate IsDigit(c: char) {
    '0' <= c <= '9'
  }

  /** Decimal digits of a natural number, most significant first, no leading zero. */
  function NatToString(n: nat): (r: string)
    ensures |r| >= 1
    ensures forall i :: 0 <= i < |r| ==> IsDigit(r[i])
    ensures |r| > 1 ==> r[0] != '0'
  {
    if n < 10 then [DigitChar(n)] else NatToString(n / 10) + [DigitChar(n % 10)]
  }

  /** `String(n)` for an integer `n`: a minus sign before the digits of a negative number. */
  function IntToString(n: int): (r: string)
    ensures n >= 0 ==> r == NatToString(n)
    ensures n < 0 ==> r == "-" + NatToString(-n)
  {
    if n < 0 then "-" + NatToString(-n) else NatToString(n)
  }

  /** The value of a string of decimal digits. */
  function DecimalValue(s: string): int
    requires forall i :: 0 <= i < |s| ==> IsDigit(s[i])
  {
    if s == [] then 0
    else DecimalValue(s[..|s| - 1]) * 10 + (s[|s| - 1] as int - '0' as int)
  }

  /** Reading the digits back gives the number: the decimal form is faithful. */
  lemma {:induction false} NatToStringRoundTrip(n: nat)
    ensures DecimalValue(NatToString(n)) == n
  {
    if n >= 10 {
      NatToStringRoundTrip(n / 10);
      var s := NatToString(n);
      assert s[..|s| - 1] == NatToString(n / 10);
    }
  }

  /** Distinct numbers have distinct decimal forms. */
  lemma IntToStringInjective(a: int, b: int)
    requires IntToString(a) == IntToString(b)
    ensures a == b
  {
    if a >= 0 && b >= 0 {
      NatToStringRoundTrip(a);
      NatToStringRoundTrip(b);
    } else if a < 0 && b < 0 {
      assert IntToString(a)[1..] == NatToString(-a);
      assert IntToString(b)[1..] == NatToString(-b);
      NatToStringRoundTrip(-a);
      NatToStringRoundTrip(-b);
    }
  }

  /** The UTF-16 code units of one character: the character itself inside the
      Basic Multilingual Plane, otherwise a high and a low surrogate. */
  function CodeUnits(c: char): (u: seq<int>)
    ensures c as int < 0x10000 ==> u == [c as int]
    ensures c as int >= 0x10000 ==> |u| == 2 && 0xD800 <= u[0] < 0xDC00 && 0xDC00 <= u[1] < 0xE000
  {
    if c as int < 0x10000 then [c as int]
    else
      var v := c as int - 0x10000;
      [0xD800 + v / 0x400, 0xDC00 + v % 0x400]
  }

  /** A string as JavaScript stores it: the concatenated code units of its characters. */
  function Utf16(s: string): (u: seq<int>)
    ensures |s| <= |u| <= 2 * |s|
  {
    if s == [] then [] else CodeUnits(s[0]) + Utf16(s[1..])
  }

  /** `s.length`: the number of UTF-16 code units. */
  function Utf16Length(s: string): (n: nat)
    ensures |s| <= n <= 2 * |s|
  {
    |Utf16(s)|
  }

  /** A string of Basic Multilingual Plane characters is as long in code units as in characters. */
  lemma {:induction false} BmpLength(s: string)
    requires forall i :: 0 <= i < |s| ==> s[i] as int < 0x10000
    ensures Utf16Length(s) == |s|
  {
    if s != [] {
      BmpLength(s[1..]);
    }
  }

  /** Every character outside the Basic Multilingual Plane adds one code unit. */
  lemma AstralLength(c: char, s: string)
    requires c as int >= 0x10000
    ensures Utf16Length([c] + s) == Utf16Length(s) + 2
  {
    assert ([c] + s)[1..] == s;
  }

  /** Different strings have different encodings: the code units determine the characters. */
  lemma {:induction false} Utf16Injective(a: string, b: string)
    requires Utf16(a) == Utf16(b)
    ensures a == b
  {
    if a != [] && b != [] {
      var u := Utf16(a);
      var ca, cb := CodeUnits(a[0]), CodeUnits(b[0]);
      assert u == ca + Utf16(a[1..]) && u == cb + Utf16(b[1..]);
      assert u[0] == ca[0] == cb[0];
      if a[0] as int < 0x10000 && b[0] as int < 0x10000 {
        assert a[0] as int == b[0] as int;
      } else if a[0] as int >= 0x10000 && b[0] as int >= 0x10000 {
        assert u[1] == ca[1] == cb[1];
        var va, vb := a[0] as int - 0x10000, b[0] as int - 0x10000;
        assert va == va / 0x400 * 0x400 + va % 0x400;
        assert vb == vb / 0x400 * 0x400 + vb % 0x400;
      }
      assert ca == cb;
      assert Utf16(a[1..]) == u[|ca|..] == Utf16(b[1..]);
      Utf16Injective(a[1..], b[1..]);
      assert a == [a[0]] + a[1..] && b == [b[0]] + b[1..];
    }
  }
}
