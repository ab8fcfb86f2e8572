/**
 * JavaScript string primitives shared by the modules of this model:
 * optional values (null/undefined), string truthiness, the whitespace set
 * of `\s` and `String.prototype.trim`, case mapping over a declared
 * character domain, and UTF-16 code units (what `length`, `charCodeAt` and
 * the default `Array.prototype.sort` see).
 */
module Text {

  /** `null`/`undefined` (None) or a present value. */
  datatype Option<T> = None | Some(value: T)

  /** JavaScript truthiness of a possibly missing string: present and non-empty. */
  predicate Truthy(s: Option<string>) {
    s.Some? && s.value != ""
  }

  /** `x || ""` for a possibly missing string. */
  function OrEmpty(s: Option<string>): (r: string)
    ensures Truthy(s) ==> r == s.value
    ensures !Truthy(s) ==> r == ""
  {
    if s.Some? then s.value else ""
  }

  // ---------------------------------------------------------------------
  // Whitespace and trim
  // ---------------------------------------------------------------------

  /** The characters matched by `\s` and removed by `trim()` (WhiteSpace and LineTerminator). */
  predicate IsJsWhitespace(c: char) {
    || c == '\t' || c == '\n' || c == '\U{B}' || c == '\U{C}' || c == '\r' || c == ' '
    || c == '\U{A0}' || c == '\U{1680}' || ('\U{2000}' <= c <= '\U{200A}')
    || c == '\U{2028}' || c == '\U{2029}' || c == '\U{202F}' || c == '\U{205F}'
    || c == '\U{3000}' || c == '\U{FEFF}'
  }

  /** Every character is whitespace (the empty string included). */
  predicate IsBlank(s: string) {
    forall i :: 0 <= i < |s| ==> IsJsWhitespace(s[i])
  }

  /** `s.trimStart()`: the longest suffix that does not start with whitespace. */
  function TrimStart(s: string): (r: string)
    ensures |r| <= |s| && r == s[|s| - |r|..]
    ensures r == [] || !IsJsWhitespace(r[0])
    ensures forall i :: 0 <= i < |s| - |r| ==> IsJsWhitespace(s[i])
  {
    if s != [] && IsJsWhitespace(s[0]) then
      var r := TrimStart(s[1..]);
      assert forall i :: 1 <= i < |s| ==> s[i] == s[1..][i - 1];
      r
    else s
  }

  /** `s.trimEnd()`: the longest prefix that does not end with whitespace. */
  function TrimEnd(s: string): (r: string)
    ensures |r| <= |s| && r == s[..|r|]
    ensures r == [] || !IsJsWhitespace(r[|r| - 1])
    ensures forall i :: |r| <= i < |s| ==> IsJsWhitespace(s[i])
  {
    if s != [] && IsJsWhitespace(s[|s| - 1]) then
      var r := TrimEnd(s[..|s| - 1]);
      r
    else s
  }

  /** `s.trim()`: leading and trailing whitespace removed. */
  function Trim(s: string): string {
    TrimEnd(TrimStart(s))
  }

  /** `s.trim() !== ""` holds exactly when `s` has a non-whitespace character. */
  lemma {:induction false} TrimEmptyIffBlank(s: string)
    ensures Trim(s) == "" <==> IsBlank(s)
  {
    var t := TrimStart(s);
    if Trim(s) == "" {
      assert |t| == 0;
    } else {
      var k := |s| - |t|;
      assert t[0] == s[k];
      assert !IsJsWhitespace(s[k]);
    }
  }

  // ---------------------------------------------------------------------
  // Case mapping over a declared character domain
  // ---------------------------------------------------------------------

  /** The upper-case Polish letters outside Latin-1 (each lower-cases to the next code point). */
  predicate IsPolishCapital(c: char) {
    c == '\U{104}' || c == '\U{106}' || c == '\U{118}' || c == '\U{141}'
    || c == '\U{143}' || c == '\U{15A}' || c == '\U{179}' || c == '\U{17B}'
  }

  /**
   * `toLowerCase` / `toLocaleLowerCase` of one character, over the declared
   * domain: ASCII, Latin-1, the Polish capitals and Y with diaeresis. Every
   * other character is its own lower case here.
   */
  function LowerChar(c: char): (r: char)
    ensures 'a' <= r <= 'z' <==> 'a' <= c <= 'z' || 'A' <= c <= 'Z'
    ensures '0' <= r <= '9' <==> '0' <= c <= '9'
    ensures r == '_' <==> c == '_'
  {
    if 'A' <= c <= 'Z' then (c as int + 32) as char
    else if '\U{C0}' <= c <= '\U{DE}' && c != '\U{D7}' then (c as int + 32) as char
    else if IsPolishCapital(c) then (c as int + 1) as char
    else if c == '\U{178}' then '\U{FF}'
    else c
  }

  /** `s.toLowerCase()`: character by character. */
  function ToLower(s: string): (r: string)
    ensures |r| == |s|
    ensures forall i :: 0 <= i < |s| ==> r[i] == LowerChar(s[i])
  {
    seq(|s|, i requires 0 <= i < |s| => LowerChar(s[i]))
  }

  /** Lower-casing a lower-cased character changes nothing. */
  lemma LowerCharIdempotent(c: char)
    ensures LowerChar(LowerChar(c)) == LowerChar(c)
  {
  }

  /**
   * `toUpperCase` of one character, over the declared domain: ASCII and
   * Latin-1 (where sharp s becomes "SS"). Every other character is its own
   * upper case here.
   */
  function UpperOf(c: char): (r: string)
    ensures 'a' <= c <= 'z' ==> r == [(c as int - 32) as char]
    ensures c == '\U{DF}' ==> r == "SS"
    ensures |r| >= 1
  {
    if 'a' <= c <= 'z' then [(c as int - 32) as char]
    else if '\U{E0}' <= c <= '\U{FE}' && c != '\U{F7}' then [(c as int - 32) as char]
    else if c == '\U{FF}' then ['\U{178}']
    else if c == '\U{B5}' then ['\U{39C}']
    else if c == '\U{DF}' then "SS"
    else [c]
  }

  /** `s.toUpperCase()`. */
  function ToUpper(s: string): (r: string)
    // no character's upper case is empty, so upper-casing never shortens
    ensures |r| >= |s|
  {
    if s == [] then [] else UpperOf(s[0]) + ToUpper(s[1..])
  }

  // ---------------------------------------------------------------------
  // UTF-16 code units
  // ---------------------------------------------------------------------

  /** The UTF-16 code units of one character. */
  function Utf16Units(c: char): (u: seq<int>)
    ensures 1 <= |u| <= 2
    ensures forall i :: 0 <= i < |u| ==> 0 <= u[i] < 0x1_0000
    ensures |u| == 1 <==> (c as int) < 0x1_0000
    ensures |u| == 1 ==> u[0] == c as int && !(0xD800 <= u[0] < 0xE000)
    ensures |u| == 2 ==> 0xD800 <= u[0] < 0xDC00 && 0xDC00 <= u[1] < 0xE000
  {
    var n := c as int;
    if n < 0x1_0000 then [n]
    else [0xD800 + (n - 0x1_0000) / 0x400, 0xDC00 + (n - 0x1_0000) % 0x400]
  }

  /** The UTF-16 encoding of a string: what JavaScript indexes and compares. */
  function Utf16(s: string): (u: seq<int>)
    ensures |u| >= |s|
    ensures forall i :: 0 <= i < |u| ==> 0 <= u[i] < 0x1_0000
  {
    if s == [] then [] else Utf16Units(s[0]) + Utf16(s[1..])
  }

  /** One character is recovered from its code units. */
  lemma Utf16UnitsInjective(a: char, b: char)
    requires Utf16Units(a) == Utf16Units(b)
    ensures a == b
  {
    var x, y := a as int, b as int;
    if x >= 0x1_0000 {
      var p, q := x - 0x1_0000, y - 0x1_0000;
      assert p == (p / 0x400) * 0x400 + p % 0x400;
      assert q == (q / 0x400) * 0x400 + q % 0x400;
    }
  }

  /** Distinct strings have distinct UTF-16 encodings. */
  lemma {:induction false} Utf16Injective(s: string, t: string)
    requires Utf16(s) == Utf16(t)
    ensures s == t
  {
    if s != [] && t != [] {
      var us, ut := Utf16Units(s[0]), Utf16Units(t[0]);
      assert Utf16(s) == us + Utf16(s[1..]);
      assert Utf16(t) == ut + Utf16(t[1..]);
      // a lone unit is never a surrogate, so both characters take the same number of units
      assert us[0] == Utf16(s)[0] == ut[0];
      assert us == Utf16(s)[..|us|] == Utf16(t)[..|ut|] == ut;
      Utf16UnitsInjective(s[0], t[0]);
      assert Utf16(s[1..]) == Utf16(s)[|us|..] == Utf16(t)[|ut|..] == Utf16(t[1..]);
      Utf16Injective(s[1..], t[1..]);
      assert s == [s[0]] + s[1..];
      assert t == [t[0]] + t[1..];
    }
  }
}
