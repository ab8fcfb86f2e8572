/**
 * Flags for interface languages: `countryFlagEmoji`, which builds the flag
 * of a two-letter region from regional-indicator code points, and
 * `flagForLocale`, which looks a language code up in a fixed table, first
 * as given and then normalised.
 *
 * The table's values are stored in the source as the Windows-1254 reading
 * of the UTF-8 bytes of each flag (eight characters, not the two-code-point
 * flag). `StoredFlag` rebuilds each value from its region, and
 * `StoredFlagIsMisreadFlag` proves that this is what they are.
 */
module Locale {
  import opened Text

  // ---------------------------------------------------------------------
  // countryFlagEmoji
  // ---------------------------------------------------------------------

  /** The code point `charCodeAt(i) - 65 + 0x1F1E6`: for "A".."Z", the regional indicator letters. */
  function IndicatorFor(unit: int): (c: char)
    requires 0 <= unit < 0x1_0000
    ensures c as int == unit - 65 + 0x1F1E6
  {
    (unit - 65 + 0x1F1E6) as char
  }

  /**
   * `countryFlagEmoji(region2)`: "" unless the upper-cased input is two
   * UTF-16 code units long; otherwise the two code points offset from the
   * regional indicator "A" by each unit's distance from "A".
   */
  function CountryFlagEmoji(region2: string): (r: string)
    ensures |Utf16(ToUpper(region2))| != 2 ==> r == ""
    ensures |Utf16(ToUpper(region2))| == 2 ==> |r| == 2
    // codes longer than two characters, such as three-letter codes, get no flag
    ensures |region2| > 2 ==> r == ""
  {
    var cc := Utf16(ToUpper(region2));
    if |cc| != 2 then "" else [IndicatorFor(cc[0]), IndicatorFor(cc[1])]
  }

  predicate IsAsciiLetter(c: char) {
    ('A' <= c <= 'Z') || ('a' <= c <= 'z')
  }

  /** An ASCII letter in upper case. */
  function AsciiUpper(c: char): (u: char)
    requires IsAsciiLetter(c)
    ensures 'A' <= u <= 'Z'
    ensures 'A' <= c <= 'Z' ==> u == c
  {
    if 'a' <= c <= 'z' then (c as int - 32) as char else c
  }

  /** The regional indicator symbol of an upper-case ASCII letter. */
  function RegionalIndicator(letter: char): (c: char)
    requires 'A' <= letter <= 'Z'
    ensures 0x1F1E6 <= c as int <= 0x1F1FF
  {
    (letter as int - 'A' as int + 0x1F1E6) as char
  }

  /** Upper case of an ASCII letter, as `toUpperCase` computes it. */
  lemma UpperOfAsciiLetter(c: char)
    requires IsAsciiLetter(c)
    ensures UpperOf(c) == [AsciiUpper(c)]
  {
  }

  /** Upper case and code units of a two-letter ASCII string. */
  lemma TwoLetters(a: char, b: char)
    requires IsAsciiLetter(a) && IsAsciiLetter(b)
    ensures ToUpper([a, b]) == [AsciiUpper(a), AsciiUpper(b)]
    ensures Utf16([AsciiUpper(a), AsciiUpper(b)]) == [AsciiUpper(a) as int, AsciiUpper(b) as int]
  {
    UpperOfAsciiLetter(a);
    UpperOfAsciiLetter(b);
    assert [a, b][1..] == [b];
    assert ToUpper([b]) == UpperOf(b) + ToUpper([]);
    var u := [AsciiUpper(a), AsciiUpper(b)];
    assert u[1..] == [AsciiUpper(b)];
    assert Utf16([AsciiUpper(b)]) == Utf16Units(AsciiUpper(b)) + Utf16([]);
  }

  /**
   * For two ASCII letters, in either case, the result is the flag: the two
   * regional indicator symbols of the upper-cased letters.
   */
  lemma FlagOfLetters(a: char, b: char)
    requires IsAsciiLetter(a) && IsAsciiLetter(b)
    ensures CountryFlagEmoji([a, b]) == [RegionalIndicator(AsciiUpper(a)), RegionalIndicator(AsciiUpper(b))]
  {
    TwoLetters(a, b);
  }

  /** Two-letter regions have the same flag exactly when they agree up to case. */
  lemma FlagIdentifiesRegion(a: char, b: char, c: char, d: char)
    requires IsAsciiLetter(a) && IsAsciiLetter(b) && IsAsciiLetter(c) && IsAsciiLetter(d)
    ensures CountryFlagEmoji([a, b]) == CountryFlagEmoji([c, d]) <==>
              AsciiUpper(a) == AsciiUpper(c) && AsciiUpper(b) == AsciiUpper(d)
  {
    FlagOfLetters(a, b);
    FlagOfLetters(c, d);
  }

  /**
   * Upper-casing comes before the length test, so the one-character "ß"
   * (upper case "SS") gets the flag of "SS".
   */
  lemma SharpSGetsFlagOfSS()
    ensures CountryFlagEmoji("ß") == CountryFlagEmoji("SS") == [RegionalIndicator('S'), RegionalIndicator('S')]
  {
    FlagOfLetters('S', 'S');
    assert ToUpper("ß") == "SS";
  }

  // ---------------------------------------------------------------------
  // The stored flags
  // ---------------------------------------------------------------------

  /** The UTF-8 bytes of one character. */
  function Utf8(c: char): (bytes: seq<int>)
    ensures 1 <= |bytes| <= 4
    ensures forall i :: 0 <= i < |bytes| ==> 0 <= bytes[i] < 0x100
  {
    var n := c as int;
    if n < 0x80 then [n]
    else if n < 0x800 then [0xC0 + n / 0x40, 0x80 + n % 0x40]
    else if n < 0x1_0000 then [0xE0 + n / 0x1000, 0x80 + (n / 0x40) % 0x40, 0x80 + n % 0x40]
    else [0xF0 + n / 0x4_0000, 0x80 + (n / 0x1000) % 0x40, 0x80 + (n / 0x40) % 0x40, 0x80 + n % 0x40]
  }

  /**
   * One byte read as Windows-1254 (Turkish). Bytes the code page leaves
   * undefined are read as the C1 control of the same number.
   */
  function Cp1254(b: int): char
    requires 0 <= b < 0x100
  {
    match b
    case 0x80 => '\U{20AC}'  case 0x82 => '\U{201A}'  case 0x83 => '\U{192}'   case 0x84 => '\U{201E}'
    case 0x85 => '\U{2026}'  case 0x86 => '\U{2020}'  case 0x87 => '\U{2021}'  case 0x88 => '\U{2C6}'
    case 0x89 => '\U{2030}'  case 0x8A => '\U{160}'   case 0x8B => '\U{2039}'  case 0x8C => '\U{152}'
    case 0x91 => '\U{2018}'  case 0x92 => '\U{2019}'  case 0x93 => '\U{201C}'  case 0x94 => '\U{201D}'
    case 0x95 => '\U{2022}'  case 0x96 => '\U{2013}'  case 0x97 => '\U{2014}'  case 0x98 => '\U{2DC}'
    case 0x99 => '\U{2122}'  case 0x9A => '\U{161}'   case 0x9B => '\U{203A}'  case 0x9C => '\U{153}'
    case 0x9F => '\U{178}'
    case 0xD0 => '\U{11E}'   case 0xDD => '\U{130}'   case 0xDE => '\U{15E}'
    case 0xF0 => '\U{11F}'   case 0xFD => '\U{131}'   case 0xFE => '\U{15F}'
    case _ => b as char
  }

  /** A string's UTF-8 bytes read back as Windows-1254. */
  function Misread(s: string): string
  {
    if s == [] then [] else MisreadBytes(Utf8(s[0])) + Misread(s[1..])
  }

  function MisreadBytes(bytes: seq<int>): string
    requires forall i :: 0 <= i < |bytes| ==> 0 <= bytes[i] < 0x100
  {
    if bytes == [] then [] else [Cp1254(bytes[0])] + MisreadBytes(bytes[1..])
  }

  /** A two-letter upper-case ASCII region code. */
  predicate IsRegion(region: string) {
    |region| == 2 && 'A' <= region[0] <= 'Z' && 'A' <= region[1] <= 'Z'
  }

  /** The four characters the table stores for one regional indicator letter. */
  function StoredIndicator(letter: char): string
    requires 'A' <= letter <= 'Z'
  {
    ['\U{11F}', '\U{178}', '\U{2021}', (0xA6 + (letter as int - 'A' as int)) as char]
  }

  /** The eight characters the table stores for the flag of `region`. */
  function StoredFlag(region: string): string
    requires IsRegion(region)
  {
    StoredIndicator(region[0]) + StoredIndicator(region[1])
  }

  /** The stored characters of one letter are the misread UTF-8 bytes of its regional indicator. */
  lemma StoredIndicatorIsMisread(letter: char)
    requires 'A' <= letter <= 'Z'
    ensures MisreadBytes(Utf8(RegionalIndicator(letter))) == StoredIndicator(letter)
  {
    var n := RegionalIndicator(letter) as int;
    var k := letter as int - 'A' as int;
    assert n == 0x1F1E6 + k;
    assert n / 0x4_0000 == 0;
    assert n / 0x1000 == 0x1F;
    assert n / 0x40 == 0x7C7 && 0x7C7 % 0x40 == 0x07;
    assert n % 0x40 == 0x26 + k;
    var bytes := Utf8(RegionalIndicator(letter));
    assert bytes == [0xF0, 0x9F, 0x87, 0xA6 + k];
    assert MisreadBytes(bytes[3..]) == [Cp1254(0xA6 + k)] + MisreadBytes([]);
    assert MisreadBytes(bytes[2..]) == [Cp1254(0x87)] + MisreadBytes(bytes[3..]);
    assert MisreadBytes(bytes[1..]) == [Cp1254(0x9F)] + MisreadBytes(bytes[2..]);
    assert MisreadBytes(bytes) == [Cp1254(0xF0)] + MisreadBytes(bytes[1..]);
  }

  /**
   * Every value the table stores is the flag `countryFlagEmoji` builds for
   * its region, written out as UTF-8 and read back as Windows-1254.
   */
  lemma StoredFlagIsMisreadFlag(region: string)
    requires IsRegion(region)
    ensures StoredFlag(region) == Misread(CountryFlagEmoji(region))
  {
    var a, b := region[0], region[1];
    assert region == [a, b];
    FlagOfLetters(a, b);
    var flag := CountryFlagEmoji(region);
    assert flag == [RegionalIndicator(a), RegionalIndicator(b)];
    StoredIndicatorIsMisread(a);
    StoredIndicatorIsMisread(b);
    assert flag[1..] == [flag[1]];
    assert Misread(flag[1..]) == MisreadBytes(Utf8(flag[1])) + Misread([]);
    assert Misread(flag) == MisreadBytes(Utf8(flag[0])) + Misread(flag[1..]);
  }

  // ---------------------------------------------------------------------
  // flagForLocale
  // ---------------------------------------------------------------------

  /** The region whose flag the table holds for each language key. */
  const LocaleRegions: map<string, string> := map[
    "ar" := "SA", "bn" := "BD", "ca" := "ES", "cs" := "CZ", "cy" := "GB", "de" := "DE",
    "en" := "GB", "es" := "ES", "fa" := "IR", "fi" := "FI", "fr" := "FR", "gd" := "GB",
    "gl" := "ES", "hr" := "HR", "hu" := "HU", "id" := "ID", "it" := "IT", "ja" := "JP",
    "nl" := "NL", "nn" := "NO", "oc" := "FR", "pl" := "PL", "pt_BR" := "BR", "ru" := "RU",
    "sl" := "SI", "sv" := "SE", "zh_Hans" := "CN", "zh_Hant" := "TW",
    "pt-br" := "BR", "zh-hans" := "CN", "zh-hant" := "TW"]

  /** Every region of the table is a two-letter upper-case code. */
  lemma LocaleRegionsAreRegions()
    ensures forall k :: k in LocaleRegions ==> IsRegion(LocaleRegions[k])
  {
  }

  /** Every language key is at most seven characters long and starts with a lower-case letter. */
  lemma LocaleKeyShape(k: string)
    requires k in LocaleRegions
    ensures 2 <= |k| <= 7 && 'a' <= k[0] <= 'z'
  {
  }

  /** The stored flag for a language key of the table. */
  function TableFlag(k: string): (flag: string)
    requires k in LocaleRegions
    ensures |flag| == 8
  {
    LocaleRegionsAreRegions();
    StoredFlag(LocaleRegions[k])
  }

  /** `s.replace("_", "-")` with a string pattern: only the first underscore. */
  function ReplaceFirstUnderscore(s: string): (r: string)
    ensures |r| == |s|
    ensures '_' !in s ==> r == s
    ensures forall i :: 0 <= i < |s| ==> r[i] == s[i] || (s[i] == '_' && r[i] == '-')
    // only the first underscore changes, and it does change
    ensures forall i :: 0 <= i < |s| && r[i] != s[i] ==> '_' !in s[..i]
    ensures forall i :: 0 <= i < |s| && s[i] == '_' && '_' !in s[..i] ==> r[i] == '-'
  {
    assert forall i :: 1 <= i < |s| ==> s[..i] == [s[0]] + s[1..][..i - 1];
    if s == [] then []
    else if s[0] == '_' then ['-'] + s[1..]
    else [s[0]] + ReplaceFirstUnderscore(s[1..])
  }

  /** The normalised key: first underscore to hyphen, then lower case. */
  function NormalizedKey(original: string): string
  {
    ToLower(ReplaceFirstUnderscore(original))
  }

  /**
   * `flagForLocale(lang)`: the table's value for `lang || ""` when it is a
   * key, else for its normalised form, else "". Only the table's own keys
   * are looked up (see `FlagForLocaleAsWritten` for the code as written).
   */
  function FlagForLocale(lang: Option<string>): (r: string)
    // no flag, or one stored eight-character text
    ensures r == "" || |r| == 8
  {
    var original := OrEmpty(lang);
    var normalized := NormalizedKey(original);
    if original in LocaleRegions then TableFlag(original)
    else if normalized in LocaleRegions then TableFlag(normalized)
    else ""
  }

  /**
   * The key given is tried first, then the normalised key; the result is
   * "" exactly when neither is in the table.
   */
  lemma FlagLookupOrder(lang: Option<string>)
    ensures var original := OrEmpty(lang);
            var normalized := NormalizedKey(original);
            && (original in LocaleRegions ==> FlagForLocale(lang) == TableFlag(original))
            && (original !in LocaleRegions && normalized in LocaleRegions ==>
                  FlagForLocale(lang) == TableFlag(normalized))
            && (FlagForLocale(lang) == "" <==> original !in LocaleRegions && normalized !in LocaleRegions)
  {
  }

  /** A missing language and the empty language get no flag. */
  lemma NoFlagForMissingLanguage()
    ensures FlagForLocale(None) == "" && FlagForLocale(Some("")) == ""
  {
    if "" in LocaleRegions {
      LocaleKeyShape("");
    }
    assert NormalizedKey("") == "";
  }

  /** A language code that starts with an upper-case letter is never a key itself. */
  lemma CapitalisedCodeIsNotAKey(k: string)
    requires k != [] && 'A' <= k[0] <= 'Z'
    ensures k !in LocaleRegions
  {
    if k in LocaleRegions {
      LocaleKeyShape(k);
    }
  }

  /** The result is "" or one of the table's stored flags. */
  lemma FlagIsTableValue(lang: Option<string>)
    ensures var r := FlagForLocale(lang);
            r == "" || exists k :: k in LocaleRegions && r == TableFlag(k)
  {
  }

  /** "zh_Hans" and "zh_Hant" are keys of the table and get the flags of China and Taiwan. */
  lemma ChineseKeysFoundAsGiven(lang: string)
    requires lang == "zh_Hans" || lang == "zh_Hant"
    ensures FlagForLocale(Some(lang)) == StoredFlag(if lang == "zh_Hans" then "CN" else "TW")
  {
  }

  /** "pt_BR" is a key of the table itself and gets the Brazilian flag unchanged. */
  lemma UnderscoreKeyFoundAsGiven(lang: string)
    requires lang == "pt_BR"
    ensures FlagForLocale(Some(lang)) == StoredFlag("BR")
  {
  }

  /** The upper-case forms "PT-BR" and "PT_BR" normalise to the key "pt-br". */
  lemma UpperCaseBrazilianNormalised(lang: string)
    requires lang == "PT-BR" || lang == "PT_BR"
    ensures NormalizedKey(lang) == "pt-br"
  {
    HyphenatedBrazilian(lang);
    LowerBrazilian(ReplaceFirstUnderscore(lang));
  }

  /** Replacing the first underscore turns both forms into "PT-BR". */
  lemma HyphenatedBrazilian(lang: string)
    requires lang == "PT-BR" || lang == "PT_BR"
    ensures ReplaceFirstUnderscore(lang) == "PT-BR"
  {
    assert lang[3..] == "BR" && '_' !in lang[3..];
    assert ReplaceFirstUnderscore(lang[2..]) == "-BR";
    assert ReplaceFirstUnderscore(lang[1..]) == [lang[1]] + ReplaceFirstUnderscore(lang[1..][1..]);
    assert lang[1..][1..] == lang[2..];
  }

  lemma LowerBrazilian(code: string)
    requires code == "PT-BR"
    ensures ToLower(code) == "pt-br"
  {
  }

  /** "PT-BR" and "PT_BR" reach the Brazilian flag through the normalised key "pt-br". */
  lemma UpperCaseBrazilianFound(lang: string)
    requires lang == "PT-BR" || lang == "PT_BR"
    ensures FlagForLocale(Some(lang)) == StoredFlag("BR")
  {
    CapitalisedCodeIsNotAKey(lang);
    UpperCaseBrazilianNormalised(lang);
  }

  // ---------------------------------------------------------------------
  // The lookup as written
  // ---------------------------------------------------------------------

  /**
   * The members every plain JavaScript object inherits from
   * `Object.prototype`, which a `map[key]` lookup on an object literal
   * finds as well as the literal's own keys.
   */
  const ObjectPrototypeMembers: set<string> := {
    "constructor", "hasOwnProperty", "isPrototypeOf", "propertyIsEnumerable",
    "toString", "toLocaleString", "valueOf", "__proto__",
    "__defineGetter__", "__defineSetter__", "__lookupGetter__", "__lookupSetter__"}

  /** What a property read on the table yields: a stored string, or an inherited (non-string) member. */
  datatype JsValue = Str(s: string) | InheritedMember(name: string)

  /** `map[key]` on the object literal: own key, else inherited member, else `undefined`. */
  function PropertyRead(key: string): (v: Option<JsValue>)
    ensures key in LocaleRegions ==> v == Some(Str(TableFlag(key)))
    ensures key !in LocaleRegions && key in ObjectPrototypeMembers ==> v == Some(InheritedMember(key))
    ensures key !in LocaleRegions && key !in ObjectPrototypeMembers ==> v == None
  {
    if key in LocaleRegions then Some(Str(TableFlag(key)))
    else if key in ObjectPrototypeMembers then Some(InheritedMember(key))
    else None
  }

  /** `map[original] ?? map[normalized] ?? ""` as written. */
  function FlagForLocaleAsWritten(lang: Option<string>): (v: JsValue)
    // a non-string result is always a member inherited from `Object.prototype`
    ensures v.InheritedMember? ==> v.name in ObjectPrototypeMembers
    ensures v.Str? ==> v.s == "" || |v.s| == 8
  {
    var original := OrEmpty(lang);
    match PropertyRead(original)
    case Some(v) => v
    case None =>
      match PropertyRead(NormalizedKey(original))
      case Some(v) => v
      case None => Str("")
  }

  /** Codes longer than seven characters are not keys of the table, as given or normalised. */
  lemma LongCodeIsNotAKey(k: string)
    requires |k| > 7
    ensures k !in LocaleRegions && NormalizedKey(k) !in LocaleRegions
  {
    if k in LocaleRegions {
      LocaleKeyShape(k);
    }
    if NormalizedKey(k) in LocaleRegions {
      LocaleKeyShape(NormalizedKey(k));
    }
  }

  /**
   * The code as written returns an inherited function, not a string, for
   * the language "constructor"; the own-key lookup gives no flag.
   */
  lemma AsWrittenReturnsInheritedMember(lang: string)
    requires lang == "constructor"
    ensures FlagForLocaleAsWritten(Some(lang)) == InheritedMember("constructor")
    ensures FlagForLocale(Some(lang)) == ""
  {
    LongCodeIsNotAKey(lang);
  }

  /** "Constructor" normalises to "constructor". */
  lemma CapitalConstructorNormalised(lang: string)
    requires lang == "Constructor"
    ensures NormalizedKey(lang) == "constructor"
  {
    assert '_' !in lang;
    var low := ToLower(lang);
    assert low == ['c'] + lang[1..] by {
      forall i | 1 <= i < |lang|
        ensures low[i] == lang[i]
      {
        assert 'a' <= lang[i] <= 'z';
      }
    }
  }

  /**
   * "Constructor" is neither a key nor an inherited member, but its
   * normalised key is: the code as written returns the inherited function
   * there too.
   */
  lemma AsWrittenNormalisesToInheritedMember(lang: string)
    requires lang == "Constructor"
    ensures FlagForLocaleAsWritten(Some(lang)) == InheritedMember("constructor")
    ensures FlagForLocale(Some(lang)) == ""
  {
    LongCodeIsNotAKey(lang);
    CapitalConstructorNormalised(lang);
    assert lang !in ObjectPrototypeMembers by {
      assert lang[0] == 'C';
    }
    assert PropertyRead(lang) == None;
    var key := NormalizedKey(lang);
    assert key == "constructor";
    assert PropertyRead(key) == Some(InheritedMember("constructor"));
  }

  /**
   * Away from the inherited member names, the code as written and the
   * own-key lookup agree on every language.
   */
  lemma AsWrittenAgreesOffPrototypeNames(lang: Option<string>)
    requires OrEmpty(lang) !in ObjectPrototypeMembers
    requires NormalizedKey(OrEmpty(lang)) !in ObjectPrototypeMembers
    ensures FlagForLocaleAsWritten(lang) == Str(FlagForLocale(lang))
  {
  }

  // ---------------------------------------------------------------------
  // The flags the table evidently means
  // ---------------------------------------------------------------------

  /**
   * The lookup with the flags themselves as values: for each key, the flag
   * `countryFlagEmoji` builds for its region.
   */
  function IntendedFlagForLocale(lang: Option<string>): string
  {
    var original := OrEmpty(lang);
    var normalized := NormalizedKey(original);
    if original in LocaleRegions then CountryFlagEmoji(LocaleRegions[original])
    else if normalized in LocaleRegions then CountryFlagEmoji(LocaleRegions[normalized])
    else ""
  }

  /** A flag found is two regional indicator symbols, the flag of the key's region. */
  lemma IntendedFlagIsRegionFlag(lang: Option<string>)
    ensures var r := IntendedFlagForLocale(lang);
            r == "" || (|r| == 2 && forall i :: 0 <= i < 2 ==> 0x1F1E6 <= r[i] as int <= 0x1F1FF)
    ensures IntendedFlagForLocale(lang) == "" <==> FlagForLocale(lang) == ""
  {
    LocaleRegionsAreRegions();
    var original := OrEmpty(lang);
    var normalized := NormalizedKey(original);
    var k := if original in LocaleRegions then original else normalized;
    if k in LocaleRegions {
      var region := LocaleRegions[k];
      assert region == [region[0], region[1]];
      FlagOfLetters(region[0], region[1]);
    }
  }

  /** What the table stores is, for every language, the intended flag misread as Windows-1254. */
  lemma StoredFlagsAreMisreadIntended(lang: Option<string>)
    ensures FlagForLocale(lang) == Misread(IntendedFlagForLocale(lang))
  {
    LocaleRegionsAreRegions();
    var original := OrEmpty(lang);
    var normalized := NormalizedKey(original);
    var k := if original in LocaleRegions then original else normalized;
    if k in LocaleRegions {
      StoredFlagIsMisreadFlag(LocaleRegions[k]);
    }
  }
}
