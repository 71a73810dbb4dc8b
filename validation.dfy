/**
 * The form validators: each is one string test (a `trim`, a length bound or an
 * anchored regular expression), and `validateRegistration` chains three of them
 * with early returns. Regular expressions are written out as predicates on the
 * characters; `\s` is the whitespace set of `Text.IsSpace` and `\d` is 0-9.
 */
module Validation {
  import opened Wrappers
  import Text

  /** `value.trim() !== ''`. */
  function IsRequired(value: string): (b: bool)
    ensures b <==> exists i :: 0 <= i < |value| && !Text.IsSpace(value[i])
  {
    Text.TrimEmpty(value);
    Text.Trim(value) != ""
  }

  /** `value.length >= length`, counting UTF-16 code units. */
  function MinLength(value: string, length: int): bool {
    Text.Utf16Length(value) >= length
  }

  /** `value.length <= length`, counting UTF-16 code units. */
  function MaxLength(value: string, length: int): bool {
    Text.Utf16Length(value) <= length
  }

  /** Both bounds are inclusive. */
  lemma LengthBounds(value: string, min: int, max: int)
    ensures MinLength(value, min) && MaxLength(value, max) <==> min <= Text.Utf16Length(value) <= max
  {
  }

  /** A character outside the Basic Multilingual Plane counts twice towards both bounds. */
  lemma AstralCharCountsTwice(c: char, rest: string, length: int)
    requires c as int >= 0x10000
    ensures MinLength([c] + rest, length) <==> MinLength(rest, length - 2)
    ensures MaxLength([c] + rest, length) <==> MaxLength(rest, length - 2)
  {
    Text.AstralLength(c, rest);
  }

  /** For text in the Basic Multilingual Plane the bounds are on the number of characters. */
  lemma BmpLengthBounds(value: string, min: int, max: int)
    requires forall i :: 0 <= i < |value| ==> value[i] as int < 0x10000
    ensures MinLength(value, min) && MaxLength(value, max) <==> min <= |value| <= max
  {
    Text.BmpLength(value);
  }

  /** `/^\d+$/`: one or more decimal digits and nothing else. */
  predicate IsNumeric(value: string) {
    |value| > 0 && forall i :: 0 <= i < |value| ==> Text.IsDigit(value[i])
  }

  /** Leading zeros are accepted; the empty string, a sign, a decimal point and
      surrounding spaces are not. */
  lemma NumericExamples()
    ensures IsNumeric("007")
    ensures !IsNumeric("") && !IsNumeric("-5") && !IsNumeric("+5") && !IsNumeric("1.5") && !IsNumeric(" 1")
  {
    assert !Text.IsDigit("-5"[0]) && !Text.IsDigit("+5"[0]) && !Text.IsDigit("1.5"[1]) && !Text.IsDigit(" 1"[0]);
  }

  /** Every natural number's decimal form is numeric, and reads back as that number. */
  lemma NumericOfNat(n: nat)
    ensures IsNumeric(Text.NatToString(n))
    ensures Text.DecimalValue(Text.NatToString(n)) == n
  {
    Text.NatToStringRoundTrip(n);
  }

  /** `value >= min && value <= max`, on integers. */
  function InRange(value: int, min: int, max: int): (b: bool)
    ensures b ==> min <= max
  {
    value >= min && value <= max
  }
  /** Both ends of the range are accepted and the integers just outside it are not. */
  lemma InRangeEnds(min: int, max: int)
    requires min <= max
    ensures InRange(min, min, max) && InRange(max, min, max)
    ensures !InRange(min - 1, min, max) && !InRange(max + 1, min, max)
  {
  }


  predicate IsLowerLetter(c: char) { 'a' <= c <= 'z' }
  predicate IsUpperLetter(c: char) { 'A' <= c <= 'Z' }
  predicate IsSpecial(c: char) {
    c == '@' || c == '$' || c == '!' || c == '%' || c == '*' || c == '?' || c == '&'
  }

  /** `[A-Za-z\d@$!%*?&]`. */
  predicate IsPasswordChar(c: char) {
    IsLowerLetter(c) || IsUpperLetter(c) || Text.IsDigit(c) || IsSpecial(c)
  }

  /** The strong-password expression: four look-aheads (a lower-case letter, an
      upper-case letter, a digit, a special character) and at least eight
      characters of the allowed class. */
  predicate IsStrongPassword(value: string) {
    && |value| >= 8
    && (forall i :: 0 <= i < |value| ==> IsPasswordChar(value[i]))
    && (exists i :: 0 <= i < |value| && IsLowerLetter(value[i]))
    && (exists i :: 0 <= i < |value| && IsUpperLetter(value[i]))
    && (exists i :: 0 <= i < |value| && Text.IsDigit(value[i]))
    && (exists i :: 0 <= i < |value| && IsSpecial(value[i]))
  }

  /** One of each required class and eight characters pass; dropping a class,
      adding a space or falling below eight characters fails. */
  lemma StrongPasswordExamples()
    ensures IsStrongPassword("Passw0rd!")
    ensures !IsStrongPassword("passw0rd!") && !IsStrongPassword("Password!") && !IsStrongPassword("Passw0rds")
    ensures !IsStrongPassword("Pass w0rd!") && !IsStrongPassword("Pa0rd!x")
  {
    var p := "Passw0rd!";
    assert IsLowerLetter(p[1]) && IsUpperLetter(p[0]) && Text.IsDigit(p[5]) && IsSpecial(p[8]);
    assert !IsPasswordChar("Pass w0rd!"[4]);
    var noUpper := "passw0rd!";
    assert forall i :: 0 <= i < |noUpper| ==> !IsUpperLetter(noUpper[i]);
    var noDigit := "Password!";
    assert forall i :: 0 <= i < |noDigit| ==> !Text.IsDigit(noDigit[i]);
    var noSpecial := "Passw0rds";
    assert forall i :: 0 <= i < |noSpecial| ==> !IsSpecial(noSpecial[i]);
  }

  /** A strong password has no whitespace, so it is never blank. */
  lemma StrongPasswordIsRequired(value: string)
    requires IsStrongPassword(value)
    ensures IsRequired(value)
    ensures forall i :: 0 <= i < |value| ==> !Text.IsSpace(value[i])
  {
    assert !Text.IsSpace(value[0]);
  }

  /** A string of digits alone is never a strong password: it lacks letters and specials. */
  lemma NumericIsNotStrong(value: string)
    requires IsNumeric(value)
    ensures !IsStrongPassword(value)
  {
  }

  /** `/^\+?\d{10,15}$/`: an optional plus sign, then ten to fifteen digits. */
  function IsPhoneNumber(value: string): (b: bool)
    ensures b <==> ((IsNumeric(value) && 10 <= |value| <= 15)
                    || (|value| > 0 && value[0] == '+' && IsNumeric(value[1..]) && 10 <= |value| - 1 <= 15))
  {
    var digits := if |value| > 0 && value[0] == '+' then value[1..] else value;
    10 <= |digits| <= 15 && forall i :: 0 <= i < |digits| ==> Text.IsDigit(digits[i])
  }

  /** `value === true`. */
  function IsChecked(value: bool): (b: bool)
    ensures b <==> value
  {
    value
  }

  /** `[^\s@]+`: non-empty, with no whitespace and no `@`. */
  predicate IsAtom(t: string) {
    |t| > 0 && forall k :: 0 <= k < |t| ==> !Text.IsSpace(t[k]) && t[k] != '@'
  }

  /** What `/^[^\s@]+@[^\s@]+\.[^\s@]+$/` accepts: a split `a@b.c` at an `@` and a dot
      with `a`, `b` and `c` atoms. */
  predicate EmailSplit(s: string, at: int, dot: int)
    requires 0 <= at < dot < |s|
  {
    s[at] == '@' && s[dot] == '.' && IsAtom(s[..at]) && IsAtom(s[at + 1..dot]) && IsAtom(s[dot + 1..])
  }

  /** A dot with at least one character on each side. */
  predicate HasInnerDot(t: string) {
    exists k :: 0 < k < |t| - 1 && t[k] == '.'
  }

  /** The first index of `c` in `s`, if any. */
  function IndexOf(s: string, c: char): (r: Option<nat>)
    ensures r.Some? ==> r.value < |s| && s[r.value] == c && forall k :: 0 <= k < r.value ==> s[k] != c
    ensures r.None? ==> forall k :: 0 <= k < |s| ==> s[k] != c
  {
    if s == [] then None
    else if s[0] == c then Some(0)
    else match IndexOf(s[1..], c)
      case None => None
      case Some(k) => Some(k + 1)
  }

  /** `isEmail`, decided by one scan: the first `@`, an atom before it, an atom
      after it, and a dot strictly inside the part after it. */
  function IsEmail(value: string): (b: bool)
    ensures b <==> exists at, dot :: 0 <= at < dot < |value| && EmailSplit(value, at, dot)
  {
    match IndexOf(value, '@')
    case None =>
      NoEmailWithoutAt(value);
      false
    case Some(at) =>
      var rest := value[at + 1..];
      var ok := IsAtom(value[..at]) && IsAtom(rest) && HasInnerDot(rest);
      if ok then
        var k :| 0 < k < |rest| - 1 && rest[k] == '.';
        EmailFromScan(value, at, k);
        true
      else
        ScanFindsEmail(value, at);
        false
  }

  lemma NoEmailWithoutAt(value: string)
    requires forall k :: 0 <= k < |value| ==> value[k] != '@'
    ensures !exists at, dot :: 0 <= at < dot < |value| && EmailSplit(value, at, dot)
  {
  }

  lemma EmailFromScan(value: string, at: nat, k: int)
    requires at < |value| && value[at] == '@'
    requires IsAtom(value[..at]) && IsAtom(value[at + 1..])
    requires 0 < k < |value[at + 1..]| - 1 && value[at + 1..][k] == '.'
    ensures EmailSplit(value, at, at + 1 + k)
  {
    var rest := value[at + 1..];
    assert value[at + 1..at + 1 + k] == rest[..k];
    assert value[at + 1 + k + 1..] == rest[k + 1..];
  }

  /** Any split `a@b.c` is the one the scan finds: its `@` is the first one. */
  lemma ScanFindsEmail(value: string, at: nat)
    requires at < |value| && value[at] == '@' && forall k :: 0 <= k < at ==> value[k] != '@'
    ensures (exists a, d :: 0 <= a < d < |value| && EmailSplit(value, a, d)) ==>
      IsAtom(value[..at]) && IsAtom(value[at + 1..])
      && HasInnerDot(value[at + 1..])
  {
    if exists a, d :: 0 <= a < d < |value| && EmailSplit(value, a, d) {
      var a, d :| 0 <= a < d < |value| && EmailSplit(value, a, d);
      var rest := value[at + 1..];
      if a > at {
        assert false;
      }
      forall j | 0 <= j < |rest| ensures !Text.IsSpace(rest[j]) && rest[j] != '@' {
        if j < d - at - 1 {
          assert rest[j] == value[at + 1..d][j];
        } else if j > d - at - 1 {
          assert rest[j] == value[d + 1..][j - (d - at)];
        }
      }
      assert rest[d - at - 1] == '.';
    }
  }

  /** An address always has a non-blank character, so the "required" check never
      rejects a string the "invalid" check would accept. */
  lemma EmailIsRequired(value: string)
    requires IsEmail(value)
    ensures IsRequired(value)
  {
    var at, dot :| 0 <= at < dot < |value| && EmailSplit(value, at, dot);
    assert value[at] == '@';
  }

  /** `validateRegistration`: the first failing check's message, or none. */
  function ValidateRegistration(email: string, password: string): (r: Option<string>)
    ensures r.None? <==> IsRequired(email) && IsEmail(email) && IsStrongPassword(password)
    ensures r == Some("Email is required") <==> !IsRequired(email)
    ensures r == Some("Email is invalid") <==> IsRequired(email) && !IsEmail(email)
    ensures r == Some("Password is weak") <==> IsRequired(email) && IsEmail(email) && !IsStrongPassword(password)
  {
    if !IsRequired(email) then Some("Email is required")
    else if !IsEmail(email) then Some("Email is invalid")
    else if !IsStrongPassword(password) then Some("Password is weak")
    else None
  }

  /** An accepted registration has a well-formed address and a strong password. */
  lemma AcceptedRegistration(email: string, password: string)
    requires ValidateRegistration(email, password).None?
    ensures IsEmail(email) && IsStrongPassword(password) && IsRequired(password)
  {
    StrongPasswordIsRequired(password);
  }
}
