/**
 * The text input's validity state: `touched` turns on at the first blur, the
 * blur handler decides `invalid` from the input type and value, and later
 * changes take the browser's verdict only once the field has been touched.
 */
module TextInput {
  import opened Wrappers
  import Text
  import Validation

  /** `[a-z0-9._%+-]`. */
  predicate IsLocalChar(c: char) {
    'a' <= c <= 'z' || Text.IsDigit(c) || c == '.' || c == '_' || c == '%' || c == '+' || c == '-'
  }

  /** `[a-z0-9.-]`. */
  predicate IsDomainChar(c: char) {
    'a' <= c <= 'z' || Text.IsDigit(c) || c == '.' || c == '-'
  }

  predicate AllOf(s: string, p: char -> bool) {
    forall k :: 0 <= k < |s| ==> p(s[k])
  }

  function LocalChar(): char -> bool { c => IsLocalChar(c) }
  function DomainChar(): char -> bool { c => IsDomainChar(c) }
  function LowerLetter(): char -> bool { c => 'a' <= c <= 'z' }

  /** What `/^[a-z0-9._%+-]+@[a-z0-9.-]+\.[a-z]{2,}$/` accepts, split at its `@` and its final dot. */
  predicate EmailPatternSplit(s: string, at: int, dot: int)
    requires 0 <= at < dot < |s|
  {
    && s[at] == '@' && s[dot] == '.'
    && at > 0 && AllOf(s[..at], LocalChar())
    && dot > at + 1 && AllOf(s[at + 1..dot], DomainChar())
    && |s| - dot - 1 >= 2 && AllOf(s[dot + 1..], LowerLetter())
  }

  /** The last index of `c` in `s`, if any. */
  function LastIndexOf(s: string, c: char): (r: Option<nat>)
    ensures r.Some? ==> r.value < |s| && s[r.value] == c && forall k :: r.value < k < |s| ==> s[k] != c
    ensures r.None? ==> forall k :: 0 <= k < |s| ==> s[k] != c
  {
    if s == [] then None
    else if s[|s| - 1] == c then Some(|s| - 1)
    else LastIndexOf(s[..|s| - 1], c)
  }

  /** The built-in address pattern, decided at the first `@` and the last dot. */
  function MatchesEmailPattern(value: string): (b: bool)
    ensures b <==> exists at, dot :: 0 <= at < dot < |value| && EmailPatternSplit(value, at, dot)
  {
    match (Validation.IndexOf(value, '@'), LastIndexOf(value, '.'))
    case (Some(at), Some(dot)) =>
      if at < dot && EmailPatternSplit(value, at, dot) then true
      else
        SplitIsUnique(value, at, dot);
        false
    case (None, _) => false
    case (_, None) => false
  }

  /** Any accepted split is at the first `@` and the last dot. */
  lemma SplitIsUnique(value: string, at: nat, dot: nat)
    requires at < |value| && value[at] == '@' && forall k :: 0 <= k < at ==> value[k] != '@'
    requires dot < |value| && value[dot] == '.' && forall k :: dot < k < |value| ==> value[k] != '.'
    ensures (exists a, d :: 0 <= a < d < |value| && EmailPatternSplit(value, a, d)) ==>
      at < dot && EmailPatternSplit(value, at, dot)
  {
    if exists a, d :: 0 <= a < d < |value| && EmailPatternSplit(value, a, d) {
      var a, d :| 0 <= a < d < |value| && EmailPatternSplit(value, a, d);
      if a > at {
        assert false;
      }
      if d < dot {
        assert false;
      }
    }
  }

  /** An address the built-in pattern accepts is also one `isEmail` accepts. */
  lemma EmailPatternIsEmail(value: string)
    requires MatchesEmailPattern(value)
    ensures Validation.IsEmail(value)
  {
    var at, dot :| 0 <= at < dot < |value| && EmailPatternSplit(value, at, dot);
    var local, domain, top := value[..at], value[at + 1..dot], value[dot + 1..];
    forall k | 0 <= k < |local| ensures !Text.IsSpace(local[k]) && local[k] != '@' {
      assert IsLocalChar(local[k]);
    }
    forall k | 0 <= k < |domain| ensures !Text.IsSpace(domain[k]) && domain[k] != '@' {
      assert IsDomainChar(domain[k]);
    }
    forall k | 0 <= k < |top| ensures !Text.IsSpace(top[k]) && top[k] != '@' {
      assert 'a' <= top[k] <= 'z';
    }
    assert Validation.EmailSplit(value, at, dot);
  }

  /** `new RegExp(pattern)` throws: a non-empty `pattern` was given and it does not
      compile. `patternVerdict` is the compiled pattern's verdict on the value, or
      `None` when the pattern is not a valid regular expression. */
  predicate PatternThrows(pattern: Option<string>, patternVerdict: Option<bool>) {
    pattern.Some? && pattern.value != "" && patternVerdict.None?
  }

  /** The value `invalid` takes on blur, or `None` when the handler throws before
      deciding it (the pattern is compiled first, whatever the input type). */
  function BlurInvalid(inputType: string, pattern: Option<string>, patternVerdict: Option<bool>, value: string): (r: Option<bool>)
    ensures r.None? <==> PatternThrows(pattern, patternVerdict)
    ensures r.Some? && inputType == "password" ==> (r.value <==> Text.Utf16Length(value) < 8)
    ensures r.Some? && inputType != "password" && (pattern.None? || pattern.value == "") ==> (r.value <==> !MatchesEmailPattern(value))
    ensures r.Some? && inputType != "password" && pattern.Some? && pattern.value != "" ==> (r.value <==> !patternVerdict.value)
  {
    if PatternThrows(pattern, patternVerdict) then None
    else
      var accepts := if pattern.Some? && pattern.value != "" then patternVerdict.value else MatchesEmailPattern(value);
      if inputType == "email" then Some(!accepts)
      else if inputType == "password" then Some(Text.Utf16Length(value) < 8)
      else Some(!accepts)
  }

  /** Without a pattern, a text field holding a word that is not an address is marked invalid. */
  lemma PlainTextMarkedInvalid()
    ensures BlurInvalid("text", None, None, "hello") == Some(true)
  {
    assert forall k :: 0 <= k < |"hello"| ==> "hello"[k] != '@';
  }

  /** A password field accepts every strong password on blur, unless the pattern throws. */
  lemma StrongPasswordPassesBlur(value: string, pattern: Option<string>, patternVerdict: Option<bool>)
    requires Validation.IsStrongPassword(value)
    ensures BlurInvalid("password", pattern, patternVerdict, value)
         == if PatternThrows(pattern, patternVerdict) then None else Some(false)
  {
    Text.BmpLength(value);
  }

  /** Four emoji are eight code units, so they pass the password length test on blur. */
  lemma FourEmojiPassBlur(pattern: Option<string>, patternVerdict: Option<bool>)
    requires !PatternThrows(pattern, patternVerdict)
    ensures var e := 0x1F600 as char;
            BlurInvalid("password", pattern, patternVerdict, [e, e, e, e]) == Some(false)
  {
    var e := 0x1F600 as char;
    Text.AstralLength(e, []);
    Text.AstralLength(e, [e]);
    Text.AstralLength(e, [e, e]);
    Text.AstralLength(e, [e, e, e]);
    assert [e] + [e, e, e] == [e, e, e, e];
  }

  /** `effectiveColor`: the error colour while invalid, the given colour otherwise. */
  function EffectiveColor(invalid: bool, color: string): (c: string)
    ensures invalid ==> c == "error"
    ensures !invalid ==> c == color
  {
    if invalid then "error" else color
  }

  class Field {
    const inputType: string
    const pattern: Option<string>
    const color: string
    var touched: bool
    var invalid: bool

    constructor (inputType: string, pattern: Option<string>, color: string)
      ensures this.inputType == inputType && this.pattern == pattern && this.color == color
      ensures !touched && !invalid
    {
      this.inputType := inputType;
      this.pattern := pattern;
      this.color := color;
      touched := false;
      invalid := false;
    }

    function Color(): string
      reads this
    {
      EffectiveColor(invalid, color)
    }

    /** `handleBlur` on the current value. When the pattern does not compile the
        handler throws after requesting `touched`, and `invalid` keeps its value. */
    method HandleBlur(value: string, patternVerdict: Option<bool>)
      modifies this
      ensures touched
      ensures invalid == match BlurInvalid(inputType, pattern, patternVerdict, value)
                         case Some(b) => b
                         case None => old(invalid)
    {
      touched := true;
      if PatternThrows(pattern, patternVerdict) {
        return;
      }
      var accepts := if pattern.Some? && pattern.value != "" then patternVerdict.value else MatchesEmailPattern(value);
      if inputType == "email" {
        invalid := !accepts;
        return;
      } else if inputType == "password" {
        invalid := Text.Utf16Length(value) < 8;
        return;
      }
      invalid := !accepts;
    }

    /** `handleChange`, given the browser's `validity.valid` for the new value. */
    method HandleChange(valid: bool)
      modifies this
      ensures touched == old(touched)
      ensures invalid == if old(touched) then !valid else old(invalid)
    {
      if touched {
        invalid := !valid;
      }
    }
  }
}
