/**
 * Usernames derived from display names: `convertToUsername`, a pipeline of
 * string rewrites, `validateUsername`, a fixed-point test of that pipeline,
 * and `autoUpdateUsername`, which keeps a username in step with the display
 * name until the user changes it.
 *
 * Case mapping is over the declared domain of `Text.LowerChar`. Unicode
 * NFD decomposition is the identity on that domain for every character that
 * survives the final filter, so it is not a separate stage here.
 */
module Username {
  import opened Text
  import opened Actors

  // ---------------------------------------------------------------------
  // Generic rewrites
  // ---------------------------------------------------------------------

  /** `s.replace(/[^...]/g, "")` for the characters not satisfying `keep`. */
  function Filter(s: string, keep: char -> bool): (r: string)
    ensures |r| <= |s|
    ensures forall i :: 0 <= i < |r| ==> keep(r[i])
    ensures forall c :: c in r ==> c in s
    ensures (forall i :: 0 <= i < |s| ==> keep(s[i])) ==> r == s
  {
    if s == [] then []
    else if keep(s[0]) then [s[0]] + Filter(s[1..], keep)
    else Filter(s[1..], keep)
  }

  /** A global single-character replacement, character by character. */
  function MapChars(s: string, f: char -> char): (r: string)
    ensures |r| == |s|
    ensures forall i :: 0 <= i < |s| ==> r[i] == f(s[i])
  {
    seq(|s|, i requires 0 <= i < |s| => f(s[i]))
  }

  /** Whether `s` holds two adjacent characters satisfying `p` (a match of `/p{2,}/`). */
  predicate HasRun(s: string, p: char -> bool) {
    exists i :: 0 <= i < |s| - 1 && p(s[i]) && p(s[i + 1])
  }

  /** `s` without its leading characters satisfying `p`. */
  function DropWhile(s: string, p: char -> bool): (r: string)
    ensures |r| <= |s| && r == s[|s| - |r|..]
    ensures r == [] || !p(r[0])
  {
    if s != [] && p(s[0]) then DropWhile(s[1..], p) else s
  }

  /**
   * A non-global `s.replace(/p{2,}/, r)`: the leftmost run of two or more
   * characters satisfying `p` is replaced, as a whole, by `r`; later runs
   * stay.
   */
  function ReplaceFirstRun(s: string, p: char -> bool, r: string): string
  {
    if |s| < 2 then s
    else if p(s[0]) && p(s[1]) then r + DropWhile(s, p)
    else [s[0]] + ReplaceFirstRun(s[1..], p, r)
  }

  /** Past a first pair that is not a run, `s` has a run exactly when its tail does. */
  lemma HasRunPastFirstPair(s: string, p: char -> bool)
    requires |s| >= 2 && !(p(s[0]) && p(s[1]))
    ensures HasRun(s, p) <==> HasRun(s[1..], p)
  {
    if HasRun(s, p) {
      var i :| 0 <= i < |s| - 1 && p(s[i]) && p(s[i + 1]);
      assert i > 0;
      assert p(s[1..][i - 1]) && p(s[1..][i]);
    }
    if HasRun(s[1..], p) {
      var i :| 0 <= i < |s| - 2 && p(s[1..][i]) && p(s[1..][i + 1]);
      assert p(s[i + 1]) && p(s[i + 2]);
    }
  }

  /** The run replacement brings in no character other than those of `s` and `r`. */
  lemma {:induction false} ReplaceFirstRunChars(s: string, p: char -> bool, r: string)
    ensures forall c :: c in ReplaceFirstRun(s, p, r) ==> c in s || c in r
  {
    if |s| < 2 {
    } else if p(s[0]) && p(s[1]) {
      var rest := DropWhile(s, p);
      assert forall c :: c in rest ==> c in s;
    } else {
      ReplaceFirstRunChars(s[1..], p, r);
      assert forall c :: c in s[1..] ==> c in s;
    }
  }

  /** The length and no-run halves of `ReplaceFirstRunChanges`. */
  lemma {:induction false} ReplaceFirstRunShape(s: string, p: char -> bool, r: string)
    ensures !HasRun(s, p) ==> ReplaceFirstRun(s, p, r) == s
    ensures HasRun(s, p) ==> |ReplaceFirstRun(s, p, r)| <= |s| - 2 + |r|
  {
    if |s| < 2 {
    } else if p(s[0]) && p(s[1]) {
    } else {
      ReplaceFirstRunShape(s[1..], p, r);
      HasRunPastFirstPair(s, p);
      assert s == [s[0]] + s[1..];
    }
  }

  /**
   * The run replacement leaves a string without a run unchanged, shortens
   * one with a run (when `r` is shorter than the run), and brings in no
   * character other than those of `s` and `r`.
   */
  lemma ReplaceFirstRunChanges(s: string, p: char -> bool, r: string)
    ensures !HasRun(s, p) ==> ReplaceFirstRun(s, p, r) == s
    ensures HasRun(s, p) ==> |ReplaceFirstRun(s, p, r)| <= |s| - 2 + |r|
    ensures forall c :: c in ReplaceFirstRun(s, p, r) ==> c in s || c in r
  {
    ReplaceFirstRunShape(s, p, r);
    ReplaceFirstRunChars(s, p, r);
  }

  // ---------------------------------------------------------------------
  // The character classes of the pipeline
  // ---------------------------------------------------------------------

  /** The characters a username may hold: `[a-z0-9_]`. */
  predicate IsUsernameChar(c: char) {
    ('a' <= c <= 'z') || ('0' <= c <= '9') || c == '_'
  }

  /** `[̀-ͯ]`: the combining diacritical marks. */
  predicate IsCombiningMark(c: char) {
    '\U{300}' <= c <= '\U{36F}'
  }

  predicate IsNotCombiningMark(c: char) {
    !IsCombiningMark(c)
  }

  predicate IsUnderscore(c: char) {
    c == '_'
  }

  /** `.replace(/ /g, "_")` on one character: only U+0020, not other whitespace. */
  function SpaceToUnderscore(c: char): char {
    if c == ' ' then '_' else c
  }

  /** `.replace(/[-&+]/g, "_")` on one character. */
  function SeparatorToUnderscore(c: char): char {
    if c == '-' || c == '&' || c == '+' then '_' else c
  }

  /**
   * The transliteration applied to `[ąćęłńóśźżäöüßàáâãåæèéêëìíîïòôõøùúûýÿñçðþ]`
   * (the only characters the replacement looks up; the map's upper-case
   * entries are never consulted, as the input is already lower case).
   * Every other character is left as it is.
   */
  function Transliterate(c: char): (r: string)
    ensures |r| >= 1
  {
    match c
    case 'ą' => "a"  case 'ć' => "c"  case 'ę' => "e"  case 'ł' => "l"  case 'ń' => "n"
    case 'ó' => "o"  case 'ś' => "s"  case 'ź' => "z"  case 'ż' => "z"
    case 'ä' => "a"  case 'ö' => "o"  case 'ü' => "u"  case 'ß' => "ss"
    case 'à' => "a"  case 'á' => "a"  case 'â' => "a"  case 'ã' => "a"  case 'å' => "a"  case 'æ' => "ae"
    case 'è' => "e"  case 'é' => "e"  case 'ê' => "e"  case 'ë' => "e"
    case 'ì' => "i"  case 'í' => "i"  case 'î' => "i"  case 'ï' => "i"
    case 'ò' => "o"  case 'ô' => "o"  case 'õ' => "o"  case 'ø' => "o"
    case 'ù' => "u"  case 'ú' => "u"  case 'û' => "u"
    case 'ý' => "y"  case 'ÿ' => "y"
    case 'ñ' => "n"  case 'ç' => "c"  case 'ð' => "d"  case 'þ' => "th"
    case _ => [c]
  }

  /** Every username character transliterates to itself. */
  lemma TransliterateUsernameChar(c: char)
    requires IsUsernameChar(c) || c == ' ' || c == '-' || c == '&' || c == '+'
    ensures Transliterate(c) == [c]
  {
  }

  function TransliterateAll(s: string): (r: string)
  {
    if s == [] then [] else Transliterate(s[0]) + TransliterateAll(s[1..])
  }

  /** Transliteration leaves a string of characters it does not look up unchanged. */
  lemma {:induction false} TransliterateAllIdentity(s: string)
    requires forall i :: 0 <= i < |s| ==> Transliterate(s[i]) == [s[i]]
    ensures TransliterateAll(s) == s
  {
    if s != [] {
      TransliterateAllIdentity(s[1..]);
    }
  }

  /** Transliteration distributes over concatenation. */
  lemma {:induction false} TransliterateAllAppend(s: string, t: string)
    ensures TransliterateAll(s + t) == TransliterateAll(s) + TransliterateAll(t)
  {
    if s != [] {
      assert (s + t)[1..] == s[1..] + t;
      TransliterateAllAppend(s[1..], t);
    } else {
      assert s + t == t;
    }
  }

  // ---------------------------------------------------------------------
  // convertToUsername
  // ---------------------------------------------------------------------

  /** The stages of `convertToUsername` on a truthy input, in order, before the last one. */
  function Prepared(value: string): string
  {
    var lowered := ToLower(value);
    var transliterated := TransliterateAll(lowered);
    var unmarked := Filter(transliterated, IsNotCombiningMark);
    var collapsed := ReplaceFirstRun(unmarked, IsJsWhitespace, " ");
    var spaced := MapChars(collapsed, SpaceToUnderscore);
    var separated := MapChars(spaced, SeparatorToUnderscore);
    Filter(separated, IsUsernameChar)
  }

  /**
   * `convertToUsername(value)`: "" for null or ""; otherwise lower-case,
   * transliterate, drop combining marks, collapse the first run of
   * whitespace to one space, turn spaces and `-&+` into underscores, drop
   * every other character outside `[a-z0-9_]`, and delete the first run of
   * two or more underscores.
   */
  function ConvertToUsername(value: Option<string>): (r: string)
    ensures !Truthy(value) ==> r == ""
    ensures forall i :: 0 <= i < |r| ==> IsUsernameChar(r[i])
  {
    if !Truthy(value) then ""
    else
      var kept := Prepared(value.value);
      var r := ReplaceFirstRun(kept, IsUnderscore, "");
      ReplaceFirstRunChanges(kept, IsUnderscore, "");
      assert forall i :: 0 <= i < |r| ==> r[i] in kept;
      r
  }

  /** A username: only `[a-z0-9_]`, and no two underscores in a row. */
  predicate IsUsername(s: string) {
    && (forall i :: 0 <= i < |s| ==> IsUsernameChar(s[i]))
    && !HasRun(s, IsUnderscore)
  }

  /** The separators the pipeline turns into underscores: a space and `-&+`. */
  predicate IsSeparator(c: char) {
    c == ' ' || c == '-' || c == '&' || c == '+'
  }

  /** The two underscore replacements together, on one character. */
  function Joined(c: char): (r: char)
    ensures r == SeparatorToUnderscore(SpaceToUnderscore(c))
    ensures IsSeparator(c) ==> r == '_'
    ensures !IsSeparator(c) ==> r == c
  {
    if IsSeparator(c) then '_' else c
  }

  /** Username characters and separators are their own lower case. */
  lemma LowerKeepsPlain(s: string)
    requires forall i :: 0 <= i < |s| ==> IsUsernameChar(s[i]) || IsSeparator(s[i])
    ensures ToLower(s) == s
  {
  }

  /** Username characters and separators are not transliterated. */
  lemma TransliterateKeepsPlain(s: string)
    requires forall i :: 0 <= i < |s| ==> IsUsernameChar(s[i]) || IsSeparator(s[i])
    ensures TransliterateAll(s) == s
  {
    forall i | 0 <= i < |s| ensures Transliterate(s[i]) == [s[i]] {
      TransliterateUsernameChar(s[i]);
    }
    TransliterateAllIdentity(s);
  }

  /**
   * Once lower-casing and transliteration have produced username characters
   * and separators with no two whitespace characters in a row, the remaining
   * stages only turn every separator into an underscore.
   */
  lemma {:induction false} PreparedAfterTransliteration(s: string, t: string)
    requires TransliterateAll(ToLower(s)) == t
    requires forall i :: 0 <= i < |t| ==> IsUsernameChar(t[i]) || IsSeparator(t[i])
    requires !HasRun(t, IsJsWhitespace)
    ensures Prepared(s) == MapChars(t, Joined)
  {
    assert Filter(t, IsNotCombiningMark) == t;
    ReplaceFirstRunChanges(t, IsJsWhitespace, " ");
    var joined := MapChars(t, Joined);
    assert MapChars(MapChars(t, SpaceToUnderscore), SeparatorToUnderscore) == joined;
    assert forall i :: 0 <= i < |joined| ==> IsUsernameChar(joined[i]);
  }

  /** The stages before the last one leave a string of username characters unchanged. */
  lemma PreparedIdentity(s: string)
    requires forall i :: 0 <= i < |s| ==> IsUsernameChar(s[i])
    ensures Prepared(s) == s
  {
    LowerKeepsPlain(s);
    TransliterateKeepsPlain(s);
    UsernameCharsUnjoined(s);
    PreparedAfterTransliteration(s, s);
  }

  /** A string of username characters has no whitespace run and no separator to replace. */
  lemma UsernameCharsUnjoined(s: string)
    requires forall i :: 0 <= i < |s| ==> IsUsernameChar(s[i])
    ensures !HasRun(s, IsJsWhitespace)
    ensures MapChars(s, Joined) == s
  {
  }

  /** A username is left unchanged by `convertToUsername`. */
  lemma UsernameIsFixedPoint(s: string)
    requires IsUsername(s)
    ensures ConvertToUsername(Some(s)) == s
  {
    if s != "" {
      PreparedIdentity(s);
      ReplaceFirstRunChanges(s, IsUnderscore, "");
    }
  }

  /** Whatever `convertToUsername` leaves unchanged is a username. */
  lemma FixedPointIsUsername(s: string)
    requires ConvertToUsername(Some(s)) == s
    ensures IsUsername(s)
  {
    if s != "" {
      PreparedIdentity(s);
      ReplaceFirstRunChanges(s, IsUnderscore, "");
    }
  }

  /** `validateUsername(actor)`: the username is its own conversion. */
  function ValidateUsername(actor: ActorRecord): (b: bool)
    // a null username is never valid, and a valid one only uses `[a-z0-9_]`
    ensures b ==> actor.preferredUsername.Some?
    ensures b ==> forall i :: 0 <= i < |actor.preferredUsername.value| ==>
                    IsUsernameChar(actor.preferredUsername.value[i])
  {
    actor.preferredUsername == Some(ConvertToUsername(actor.preferredUsername))
  }

  /**
   * A username is valid exactly when it is present, holds only
   * `[a-z0-9_]` and has no two underscores in a row. A null username is
   * never valid; the empty one is.
   */
  lemma ValidateIffUsername(actor: ActorRecord)
    ensures ValidateUsername(actor) <==> actor.preferredUsername.Some? && IsUsername(actor.preferredUsername.value)
  {
    var pu := actor.preferredUsername;
    if pu.Some? {
      if IsUsername(pu.value) {
        UsernameIsFixedPoint(pu.value);
      } else if pu.value == ConvertToUsername(pu) {
        FixedPointIsUsername(pu.value);
      }
    }
  }

  /** Conversion ignores case: it gives the same result for a lower-cased input. */
  lemma ConvertIgnoresCase(s: string)
    ensures ConvertToUsername(Some(ToLower(s))) == ConvertToUsername(Some(s))
  {
    forall i | 0 <= i < |s| ensures LowerChar(LowerChar(s[i])) == LowerChar(s[i]) {
      LowerCharIdempotent(s[i]);
    }
    assert ToLower(ToLower(s)) == ToLower(s);
  }

  /** Lower-case letters and digits: the words the separator rule joins. */
  predicate IsWord(w: string) {
    w != [] && forall i :: 0 <= i < |w| ==> ('a' <= w[i] <= 'z') || ('0' <= w[i] <= '9')
  }

  /** A space, `-`, `&` or `+` between two words becomes one underscore. */
  lemma {:induction false} SeparatorBecomesUnderscore(w1: string, sep: char, w2: string)
    requires IsWord(w1) && IsWord(w2)
    requires IsSeparator(sep)
    ensures ConvertToUsername(Some(w1 + [sep] + w2)) == w1 + "_" + w2
  {
    PreparedTwoWords(w1, sep, w2);
    ConvertUnfolds(w1 + [sep] + w2);
    var expected := w1 + "_" + w2;
    assert !HasRun(expected, IsUnderscore) by {
      forall i | 0 <= i < |expected| - 1 ensures !(expected[i] == '_' && expected[i + 1] == '_') {
        assert i < |w1| || i + 1 > |w1|;
      }
    }
    ReplaceFirstRunChanges(expected, IsUnderscore, "");
  }

  /** Two words joined by one separator hold only plain characters and no run of whitespace. */
  lemma TwoWordsPlain(w1: string, sep: char, w2: string)
    requires IsWord(w1) && IsWord(w2)
    requires IsSeparator(sep)
    ensures var s := w1 + [sep] + w2;
            (forall i :: 0 <= i < |s| ==> IsUsernameChar(s[i]) || IsSeparator(s[i]))
            && !HasRun(s, IsJsWhitespace)
  {
    var s := w1 + [sep] + w2;
    forall i | 0 <= i < |s| - 1 ensures !(IsJsWhitespace(s[i]) && IsJsWhitespace(s[i + 1])) {
      assert i < |w1| || i + 1 > |w1|;
    }
  }

  /** The underscore replacements on two words joined by one separator. */
  lemma JoinedTwoWords(w1: string, sep: char, w2: string)
    requires IsWord(w1) && IsWord(w2)
    requires IsSeparator(sep)
    ensures MapChars(w1 + [sep] + w2, Joined) == w1 + "_" + w2
  {
    assert MapChars(w1, Joined) == w1;
    assert MapChars(w2, Joined) == w2;
    assert MapChars([sep], Joined) == "_";
    MapCharsAppend(w1, [sep], Joined);
    MapCharsAppend(w1 + [sep], w2, Joined);
  }

  /** The earlier stages on two words joined by one separator. */
  lemma {:induction false} PreparedTwoWords(w1: string, sep: char, w2: string)
    requires IsWord(w1) && IsWord(w2)
    requires IsSeparator(sep)
    ensures Prepared(w1 + [sep] + w2) == w1 + "_" + w2
  {
    var s := w1 + [sep] + w2;
    TwoWordsPlain(w1, sep, w2);
    LowerKeepsPlain(s);
    TransliterateKeepsPlain(s);
    PreparedAfterTransliteration(s, s);
    JoinedTwoWords(w1, sep, w2);
  }

  /** Characters before the first run pass through the run replacement. */
  lemma ReplaceFirstRunSkips(c: char, s: string, p: char -> bool, r: string)
    requires !p(c)
    ensures ReplaceFirstRun([c] + s, p, r) == [c] + ReplaceFirstRun(s, p, r)
  {
    assert ([c] + s)[1..] == s;
  }

  /** A prefix without a character satisfying `p` passes through the run replacement. */
  lemma {:induction false} ReplaceFirstRunSkipsPrefix(x: string, s: string, p: char -> bool, r: string)
    requires forall i :: 0 <= i < |x| ==> !p(x[i])
    ensures ReplaceFirstRun(x + s, p, r) == x + ReplaceFirstRun(s, p, r)
  {
    if x == [] {
      assert x + s == s;
    } else {
      var c, t := x[0], x[1..];
      ReplaceFirstRunSkipsPrefix(t, s, p, r);
      assert x + s == [c] + (t + s);
      ReplaceFirstRunSkips(c, t + s, p, r);
      assert x + ReplaceFirstRun(s, p, r) == [c] + (t + ReplaceFirstRun(s, p, r));
    }
  }

  /** Dropping the leading `p` characters removes exactly a leading run. */
  lemma {:induction false} DropWhileRun(run: string, y: string, p: char -> bool)
    requires forall i :: 0 <= i < |run| ==> p(run[i])
    requires y == [] || !p(y[0])
    ensures DropWhile(run + y, p) == y
  {
    if run == [] {
      assert run + y == y;
    } else {
      assert (run + y)[1..] == run[1..] + y;
      DropWhileRun(run[1..], y, p);
    }
  }

  /** The two underscores a pair of separators between two words becomes, and what follows. */
  lemma DeleteLeadingRun(y: string)
    requires y != [] && y[0] != '_'
    ensures ReplaceFirstRun("__" + y, IsUnderscore, "") == y
  {
    DropWhileRun("__", y, IsUnderscore);
  }

  /** The separators that are neither whitespace nor collapsed: `-`, `&` and `+`. */
  predicate IsSymbolSeparator(c: char) {
    c == '-' || c == '&' || c == '+'
  }

  /** Three words joined by pairs of `-&+` separators, e.g. "a--b--c". */
  function ThreeWords(w1: string, w2: string, w3: string, s1: char, s2: char, s3: char, s4: char): (s: string)
    requires IsWord(w1) && IsWord(w2) && IsWord(w3)
    requires IsSymbolSeparator(s1) && IsSymbolSeparator(s2) && IsSymbolSeparator(s3) && IsSymbolSeparator(s4)
    ensures forall i :: 0 <= i < |s| ==> IsUsernameChar(s[i]) || IsSymbolSeparator(s[i])
  {
    w1 + [s1, s2] + w2 + [s3, s4] + w3
  }

  /** Character replacement distributes over concatenation. */
  lemma MapCharsAppend(a: string, b: string, f: char -> char)
    ensures MapChars(a + b, f) == MapChars(a, f) + MapChars(b, f)
  {
  }

  /** The underscore replacements on three words joined by pairs of separators. */
  lemma JoinedThreeWords(w1: string, w2: string, w3: string, s1: char, s2: char, s3: char, s4: char)
    requires IsWord(w1) && IsWord(w2) && IsWord(w3)
    requires IsSymbolSeparator(s1) && IsSymbolSeparator(s2) && IsSymbolSeparator(s3) && IsSymbolSeparator(s4)
    ensures MapChars(ThreeWords(w1, w2, w3, s1, s2, s3, s4), Joined) == w1 + "__" + w2 + "__" + w3
  {
    assert MapChars(w1, Joined) == w1;
    assert MapChars(w2, Joined) == w2;
    assert MapChars(w3, Joined) == w3;
    assert MapChars([s1, s2], Joined) == "__";
    assert MapChars([s3, s4], Joined) == "__";
    MapCharsAppend(w1, [s1, s2], Joined);
    MapCharsAppend(w1 + [s1, s2], w2, Joined);
    MapCharsAppend(w1 + [s1, s2] + w2, [s3, s4], Joined);
    MapCharsAppend(w1 + [s1, s2] + w2 + [s3, s4], w3, Joined);
  }

  /** The earlier stages on three words joined by pairs of separators. */
  lemma {:induction false} PreparedThreeWords(w1: string, w2: string, w3: string, s1: char, s2: char, s3: char, s4: char)
    requires IsWord(w1) && IsWord(w2) && IsWord(w3)
    requires IsSymbolSeparator(s1) && IsSymbolSeparator(s2) && IsSymbolSeparator(s3) && IsSymbolSeparator(s4)
    ensures Prepared(ThreeWords(w1, w2, w3, s1, s2, s3, s4)) == w1 + "__" + w2 + "__" + w3
  {
    var s := ThreeWords(w1, w2, w3, s1, s2, s3, s4);
    LowerKeepsPlain(s);
    TransliterateKeepsPlain(s);
    assert !HasRun(s, IsJsWhitespace) by {
      assert forall i :: 0 <= i < |s| ==> !IsJsWhitespace(s[i]);
    }
    PreparedAfterTransliteration(s, s);
    JoinedThreeWords(w1, w2, w3, s1, s2, s3, s4);
  }

  /** The last stage on a non-empty input: deleting the first run of underscores. */
  lemma ConvertUnfolds(v: string)
    requires v != ""
    ensures ConvertToUsername(Some(v)) == ReplaceFirstRun(Prepared(v), IsUnderscore, "")
  {
  }

  /** A word followed by a run of two underscores: the run is deleted. */
  lemma DeleteRunAfterWord(w: string, y: string)
    requires IsWord(w)
    requires y != [] && y[0] != '_'
    ensures ReplaceFirstRun(w + ("__" + y), IsUnderscore, "") == w + y
  {
    ReplaceFirstRunSkipsPrefix(w, "__" + y, IsUnderscore, "");
    DeleteLeadingRun(y);
  }

  /** Five strings joined, grouped from the right after the first two. */
  lemma Regroup(a: string, b: string, c: string, d: string, e: string)
    ensures a + b + c + d + e == a + (b + (c + d + e))
    ensures a + (c + d + e) == a + c + d + e
  {
  }

  /** Of two runs of underscores between three words, only the first is deleted. */
  lemma DeleteFirstOfTwoRuns(w1: string, w2: string, w3: string)
    requires IsWord(w1) && IsWord(w2) && IsWord(w3)
    ensures ReplaceFirstRun(w1 + "__" + w2 + "__" + w3, IsUnderscore, "") == w1 + w2 + "__" + w3
  {
    var y := w2 + "__" + w3;
    assert y[0] == w2[0];
    Regroup(w1, "__", w2, "__", w3);
    DeleteRunAfterWord(w1, y);
  }

  /**
   * Only the first run of separators is deleted: of two pairs of
   * separators between three words, the second stays as two underscores.
   */
  lemma {:induction false} OnlyFirstRunDeleted(w1: string, w2: string, w3: string, s1: char, s2: char, s3: char, s4: char)
    requires IsWord(w1) && IsWord(w2) && IsWord(w3)
    requires IsSymbolSeparator(s1) && IsSymbolSeparator(s2) && IsSymbolSeparator(s3) && IsSymbolSeparator(s4)
    ensures ConvertToUsername(Some(ThreeWords(w1, w2, w3, s1, s2, s3, s4))) == w1 + w2 + "__" + w3
  {
    ConvertUnfolds(ThreeWords(w1, w2, w3, s1, s2, s3, s4));
    PreparedThreeWords(w1, w2, w3, s1, s2, s3, s4);
    DeleteFirstOfTwoRuns(w1, w2, w3);
  }

  /** Two words written one after the other form a word. */
  lemma WordsConcat(w1: string, w2: string)
    requires IsWord(w1) && IsWord(w2)
    ensures IsWord(w1 + w2)
  {
  }

  /** Two words joined by a run of underscores: converting deletes the run. */
  lemma {:induction false} RunBetweenWordsDeleted(w: string, y: string)
    requires IsWord(w) && IsWord(y)
    ensures ConvertToUsername(Some(w + ("__" + y))) == w + y
  {
    var s := w + ("__" + y);
    assert forall i :: 0 <= i < |s| ==> IsUsernameChar(s[i]);
    PreparedIdentity(s);
    ConvertUnfolds(s);
    DeleteRunAfterWord(w, y);
  }

  /**
   * The conversion is not idempotent: converting the result of
   * `OnlyFirstRunDeleted` again deletes the second run as well.
   */
  lemma {:induction false} ConvertIsNotIdempotent(w1: string, w2: string, w3: string, s1: char, s2: char, s3: char, s4: char)
    requires IsWord(w1) && IsWord(w2) && IsWord(w3)
    requires IsSymbolSeparator(s1) && IsSymbolSeparator(s2) && IsSymbolSeparator(s3) && IsSymbolSeparator(s4)
    ensures var once := ConvertToUsername(Some(ThreeWords(w1, w2, w3, s1, s2, s3, s4)));
            ConvertToUsername(Some(once)) != once
  {
    OnlyFirstRunDeleted(w1, w2, w3, s1, s2, s3, s4);
    var once := w1 + w2 + "__" + w3;
    var k := |w1 + w2|;
    assert once[k] == '_' && once[k + 1] == '_';
    assert !IsUsername(once);
    if ConvertToUsername(Some(once)) == once {
      FixedPointIsUsername(once);
      assert false;
    }
  }

  /**
   * Lower-casing comes first, then Polish letters are transliterated: the
   * display name "Łódź" gives the username "lodz".
   */
  lemma PolishLettersTransliterated(name: string)
    requires name == "Łódź"
    ensures ConvertToUsername(Some(name)) == "lodz"
  {
    LowerThenTransliteratePolish();
    TransliteratedToUsername(name, "lodz");
  }

  /** A name whose first two stages already give a username converts to that username. */
  lemma TransliteratedToUsername(name: string, slug: string)
    requires name != "" && IsUsername(slug)
    requires TransliterateAll(ToLower(name)) == slug
    ensures ConvertToUsername(Some(name)) == slug
  {
    UsernameCharsUnjoined(slug);
    PreparedAfterTransliteration(name, slug);
    ConvertUnfolds(name);
    ReplaceFirstRunChanges(slug, IsUnderscore, "");
  }

  /** The first two stages on "Łódź". */
  lemma LowerThenTransliteratePolish()
    ensures TransliterateAll(ToLower("Łódź")) == "lodz"
  {
    assert ToLower("Łódź") == "łódź";
    assert TransliterateAll("łódź") == "lodz";
  }

  /** Sharp s is its own lower case and is spelled out as two letters: "ß" becomes "ss". */
  lemma SharpSTransliterated(name: string)
    requires name == "\U{DF}"
    ensures ConvertToUsername(Some(name)) == "ss"
  {
    LowerThenTransliterateSharpS();
    TransliteratedToUsername(name, "ss");
  }

  /** The first two stages on "ß". */
  lemma LowerThenTransliterateSharpS()
    ensures TransliterateAll(ToLower("\U{DF}")) == "ss"
  {
    assert ToLower("\U{DF}") == "\U{DF}";
    assert TransliterateAll("\U{DF}") == "ss";
  }

  // ---------------------------------------------------------------------
  // autoUpdateUsername
  // ---------------------------------------------------------------------

  /** The username still is the conversion of the display name (the user has not edited it). */
  predicate TracksName(actor: ActorRecord) {
    actor.preferredUsername == Some(ConvertToUsername(actor.name))
  }

  /**
   * `autoUpdateUsername(actor, newDisplayName)`: a copy of the actor whose
   * username follows the new display name, but only while the old username
   * is the conversion of the old name. Every other field is copied.
   */
  function AutoUpdateUsername(actor: ActorRecord, newDisplayName: Option<string>): (r: ActorRecord)
    ensures r.(preferredUsername := actor.preferredUsername) == actor
    ensures TracksName(actor) ==> r.preferredUsername == Some(ConvertToUsername(newDisplayName))
    ensures !TracksName(actor) ==> r == actor
  {
    var oldUsername := ConvertToUsername(actor.name);
    if actor.preferredUsername == Some(oldUsername) then
      actor.(preferredUsername := Some(ConvertToUsername(newDisplayName)))
    else
      actor
  }

  /**
   * A username that tracks the display name keeps tracking it once the
   * caller stores the new name; one the user edited is never touched.
   */
  lemma AutoUpdateKeepsTracking(actor: ActorRecord, newDisplayName: Option<string>)
    ensures TracksName(actor) ==> TracksName(AutoUpdateUsername(actor, newDisplayName).(name := newDisplayName))
    ensures !TracksName(actor) ==> AutoUpdateUsername(actor, newDisplayName).preferredUsername == actor.preferredUsername
  {
  }
}
