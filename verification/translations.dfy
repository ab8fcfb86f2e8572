/**
 * The translation-file update: find the English keys the Polish
 * translations lack, add them with the English text as a placeholder, and
 * write the merged translations back with their keys in sorted order.
 *
 * The English file is a sequence of entries in the order `for...in`
 * visits them (a parsed JSON object has no repeated keys); the Polish file
 * is a dictionary. The file written is a sequence of entries in key order.
 * Reading, parsing, printing and writing the files are not part of this
 * model.
 */
module Translations {
  import opened Text

  /** One key and its text. */
  datatype Entry = Entry(key: string, value: string)

  /** A translation dictionary. */
  type Dict = map<string, string>

  /** No key occurs twice. */
  predicate DistinctKeys(entries: seq<Entry>) {
    forall i, j :: 0 <= i < j < |entries| ==> entries[i].key != entries[j].key
  }

  /** The keys of a sequence of entries. */
  function KeySet(entries: seq<Entry>): set<string> {
    set e | e in entries :: e.key
  }

  // ---------------------------------------------------------------------
  // Missing keys
  // ---------------------------------------------------------------------

  /** The English entries, in order, whose key the Polish dictionary lacks. */
  function MissingIn(en: seq<Entry>, pl: Dict): seq<Entry>
  {
    if en == [] then []
    else
      var last := en[|en| - 1];
      MissingIn(en[..|en| - 1], pl) + (if last.key !in pl then [last] else [])
  }

  /**
   * The missing entries are exactly the English entries whose key is not
   * a Polish key, each with its English text, and none is listed twice.
   */
  lemma {:induction false} MissingKeysExact(en: seq<Entry>, pl: Dict)
    ensures forall e :: e in MissingIn(en, pl) <==> e in en && e.key !in pl
    ensures DistinctKeys(en) ==> DistinctKeys(MissingIn(en, pl))
  {
    if en != [] {
      var init, last := en[..|en| - 1], en[|en| - 1];
      assert en == init + [last];
      MissingKeysExact(init, pl);
      if DistinctKeys(en) {
        assert DistinctKeys(init);
        forall e | e in MissingIn(init, pl)
          ensures e.key != last.key
        {
          var i :| 0 <= i < |init| && init[i] == e;
          assert en[i] == e;
        }
      }
    }
  }

  /** Nothing is missing exactly when every English key is a Polish key. */
  lemma NothingMissingIffCovered(en: seq<Entry>, pl: Dict)
    ensures MissingIn(en, pl) == [] <==> KeySet(en) <= pl.Keys
  {
    MissingKeysExact(en, pl);
    if MissingIn(en, pl) != [] {
      var e := MissingIn(en, pl)[0];
      assert e in MissingIn(en, pl);
      assert e.key in KeySet(en);
    }
  }

  /** The `for...in` loop that pushes every English entry the Polish file lacks. */
  method FindMissingKeys(en: seq<Entry>, pl: Dict) returns (missingKeys: seq<Entry>)
    ensures missingKeys == MissingIn(en, pl)
    ensures forall e :: e in missingKeys <==> e in en && e.key !in pl
  {
    missingKeys := [];
    for i := 0 to |en|
      invariant missingKeys == MissingIn(en[..i], pl)
    {
      assert en[..i + 1][..i] == en[..i];
      if en[i].key !in pl {
        missingKeys := missingKeys + [en[i]];
      }
    }
    assert en[..|en|] == en;
    MissingKeysExact(en, pl);
  }

  // ---------------------------------------------------------------------
  // The missing translations and the merge
  // ---------------------------------------------------------------------

  /** The object built by writing the entries' keys in order (a later write wins). */
  function ToDict(entries: seq<Entry>): Dict
  {
    if entries == [] then map[]
    else
      var last := entries[|entries| - 1];
      ToDict(entries[..|entries| - 1])[last.key := last.value]
  }

  /** Without repeated keys, the object holds every entry's key with that entry's text. */
  lemma {:induction false} ToDictContents(entries: seq<Entry>)
    requires DistinctKeys(entries)
    ensures ToDict(entries).Keys == KeySet(entries)
    ensures forall e :: e in entries ==> ToDict(entries)[e.key] == e.value
  {
    if entries != [] {
      var init, last := entries[..|entries| - 1], entries[|entries| - 1];
      assert entries == init + [last];
      ToDictContents(init);
      forall e | e in entries
        ensures ToDict(entries)[e.key] == e.value
      {
        if e != last {
          var i :| 0 <= i < |entries| && entries[i] == e;
          assert i < |entries| - 1 && e in init;
        }
      }
    }
  }

  /** The `forEach` loop that writes every missing entry into `missingTranslations`. */
  method MissingTranslations(missingKeys: seq<Entry>) returns (missingTranslations: Dict)
    ensures missingTranslations == ToDict(missingKeys)
  {
    missingTranslations := map[];
    for i := 0 to |missingKeys|
      invariant missingTranslations == ToDict(missingKeys[..i])
    {
      assert missingKeys[..i + 1][..i] == missingKeys[..i];
      missingTranslations := missingTranslations[missingKeys[i].key := missingKeys[i].value];
    }
    assert missingKeys[..|missingKeys|] == missingKeys;
  }

  /** `{ ...pl, ...missingTranslations }`. */
  function Merged(en: seq<Entry>, pl: Dict): Dict
  {
    pl + ToDict(MissingIn(en, pl))
  }

  /**
   * The merge keeps every Polish text, gives every missing key its English
   * text, and holds the Polish and English keys together and nothing else.
   */
  lemma MergedContents(en: seq<Entry>, pl: Dict)
    requires DistinctKeys(en)
    ensures Merged(en, pl).Keys == pl.Keys + KeySet(en)
    ensures forall k :: k in pl ==> Merged(en, pl)[k] == pl[k]
    ensures forall e :: e in en && e.key !in pl ==> Merged(en, pl)[e.key] == e.value
  {
    MissingKeysExact(en, pl);
    ToDictContents(MissingIn(en, pl));
    MergedKeys(en, pl);
  }

  lemma MergedKeys(en: seq<Entry>, pl: Dict)
    requires ToDict(MissingIn(en, pl)).Keys == KeySet(MissingIn(en, pl))
    requires forall e :: e in MissingIn(en, pl) <==> e in en && e.key !in pl
    ensures Merged(en, pl).Keys == pl.Keys + KeySet(en)
  {
    var missing := MissingIn(en, pl);
    forall k | k in KeySet(en) && k !in pl
      ensures k in KeySet(missing)
    {
      var e :| e in en && e.key == k;
      assert e in missing;
    }
  }

  // ---------------------------------------------------------------------
  // The default sort order of keys
  // ---------------------------------------------------------------------

  /** Lexicographic order of code-unit sequences, a proper prefix first. */
  function LexLess(a: seq<int>, b: seq<int>): bool
  {
    if a == [] then b != []
    else if b == [] then false
    else if a[0] != b[0] then a[0] < b[0]
    else LexLess(a[1..], b[1..])
  }

  lemma {:induction false} LexTotal(a: seq<int>, b: seq<int>)
    ensures a == b || LexLess(a, b) || LexLess(b, a)
  {
    if a != [] && b != [] && a[0] == b[0] {
      LexTotal(a[1..], b[1..]);
      if a[1..] == b[1..] {
        assert a == [a[0]] + a[1..] && b == [b[0]] + b[1..];
      }
    }
  }

  lemma {:induction false} LexAsymmetric(a: seq<int>, b: seq<int>)
    ensures !(LexLess(a, b) && LexLess(b, a))
  {
    if a != [] && b != [] && a[0] == b[0] {
      LexAsymmetric(a[1..], b[1..]);
    }
  }

  lemma {:induction false} LexTransitive(a: seq<int>, b: seq<int>, c: seq<int>)
    requires LexLess(a, b) && LexLess(b, c)
    ensures LexLess(a, c)
  {
    if a != [] && a[0] == b[0] && b[0] == c[0] {
      LexTransitive(a[1..], b[1..], c[1..]);
    }
  }

  /** The order `Array.prototype.sort` gives strings by default: their UTF-16 code units. */
  predicate KeyLess(x: string, y: string) {
    LexLess(Utf16(x), Utf16(y))
  }

  /** Of two different keys, one sorts before the other, and never both ways. */
  lemma KeyLessStrictTotal(x: string, y: string)
    ensures x != y <==> KeyLess(x, y) || KeyLess(y, x)
    ensures !(KeyLess(x, y) && KeyLess(y, x))
  {
    LexTotal(Utf16(x), Utf16(y));
    LexAsymmetric(Utf16(x), Utf16(y));
    if Utf16(x) == Utf16(y) {
      Utf16Injective(x, y);
    }
  }

  /** Every key sorts before every later one. */
  predicate Sorted(keys: seq<string>) {
    forall i, j :: 0 <= i < j < |keys| ==> KeyLess(keys[i], keys[j])
  }

  /** A key before the first of a sorted sequence is before all of it. */
  lemma BeforeFirstIsBeforeAll(k: string, s: seq<string>)
    requires Sorted(s) && s != [] && KeyLess(k, s[0])
    ensures forall x :: x in s ==> KeyLess(k, x)
  {
    forall j | 0 < j < |s|
      ensures KeyLess(k, s[j])
    {
      LexTransitive(Utf16(k), Utf16(s[0]), Utf16(s[j]));
    }
  }

  /** `k` put into its place in a sorted sequence. */
  function Insert(s: seq<string>, k: string): (r: seq<string>)
    requires Sorted(s) && k !in s
    ensures Sorted(r) && |r| == |s| + 1
    ensures forall x :: x in r <==> x in s || x == k
  {
    if s == [] then [k]
    else if KeyLess(k, s[0]) then
      BeforeFirstIsBeforeAll(k, s);
      [k] + s
    else
      KeyLessStrictTotal(k, s[0]);
      var rest := Insert(s[1..], k);
      assert forall x :: x in rest ==> KeyLess(s[0], x);
      [s[0]] + rest
  }

  /**
   * `Object.keys(updatedPl).sort()`: every key once, in ascending order.
   * The library sort is a foreign call; what it yields is built here by
   * insertion, and `SortedIsUnique` shows that any sort gives the same
   * sequence.
   */
  method SortKeys(keys: set<string>) returns (sorted: seq<string>)
    ensures Sorted(sorted)
    ensures forall k :: k in sorted <==> k in keys
    ensures |sorted| == |keys|
  {
    sorted := [];
    var rest := keys;
    while rest != {}
      invariant Sorted(sorted)
      invariant forall k :: k in keys <==> k in sorted || k in rest
      invariant forall k :: k in rest ==> k !in sorted
      invariant |sorted| + |rest| == |keys|
      decreases |rest|
    {
      var k :| k in rest;
      sorted := Insert(sorted, k);
      rest := rest - {k};
    }
  }

  /** Two sorted sequences of the same keys are equal: the sorted order does not depend on the sort. */
  lemma {:induction false} SortedIsUnique(s: seq<string>, t: seq<string>)
    requires Sorted(s) && Sorted(t)
    requires forall k :: k in s <==> k in t
    ensures s == t
  {
    assert s != [] ==> s[0] in t;
    assert t != [] ==> t[0] in s;
    if s != [] && t != [] {
      assert t[0] in s && s[0] in t;
      if s[0] != t[0] {
        var i :| 0 <= i < |s| && s[i] == t[0];
        var j :| 0 <= j < |t| && t[j] == s[0];
        assert KeyLess(s[0], s[i]) && KeyLess(t[0], t[j]);
        KeyLessStrictTotal(s[0], t[0]);
        assert false;
      }
      forall k | k in s[1..]
        ensures k in t[1..]
      {
        var i :| 1 <= i < |s| && s[i] == k;
        KeyLessStrictTotal(s[0], k);
        assert k in s;
        var j :| 0 <= j < |t| && t[j] == k;
        assert j != 0 && t[1..][j - 1] == k;
      }
      forall k | k in t[1..]
        ensures k in s[1..]
      {
        var j :| 1 <= j < |t| && t[j] == k;
        KeyLessStrictTotal(t[0], k);
        assert k in t;
        var i :| 0 <= i < |s| && s[i] == k;
        assert i != 0 && s[1..][i - 1] == k;
      }
      SortedIsUnique(s[1..], t[1..]);
      assert s == [s[0]] + s[1..] && t == [t[0]] + t[1..];
    }
  }

  /** The `forEach` loop that writes the merged entries into `sortedPl` in key order. */
  method SortedEntries(updatedPl: Dict, keys: seq<string>) returns (sortedPl: seq<Entry>)
    requires forall k :: k in keys ==> k in updatedPl
    ensures |sortedPl| == |keys|
    ensures forall i :: 0 <= i < |keys| ==> sortedPl[i] == Entry(keys[i], updatedPl[keys[i]])
  {
    sortedPl := [];
    for i := 0 to |keys|
      invariant |sortedPl| == i
      invariant forall m :: 0 <= m < i ==> sortedPl[m] == Entry(keys[m], updatedPl[keys[m]])
    {
      sortedPl := sortedPl + [Entry(keys[i], updatedPl[keys[i]])];
    }
  }

  // ---------------------------------------------------------------------
  // The whole update
  // ---------------------------------------------------------------------

  /** The keys of a sequence of entries, in order. */
  function KeysInOrder(entries: seq<Entry>): (keys: seq<string>)
    ensures |keys| == |entries|
    ensures forall i :: 0 <= i < |entries| ==> keys[i] == entries[i].key
  {
    seq(|entries|, i requires 0 <= i < |entries| => entries[i].key)
  }

  /**
   * What the Polish file is rewritten with: every Polish and English key
   * once, in sorted order, each Polish key with its Polish text and every
   * other key with its English entry.
   */
  predicate IsWrittenFile(out: seq<Entry>, en: seq<Entry>, pl: Dict) {
    && Sorted(KeysInOrder(out))
    && KeySet(out) == pl.Keys + KeySet(en)
    && (forall e :: e in out && e.key in pl ==> e.value == pl[e.key])
    && (forall e :: e in out && e.key !in pl ==> e in en)
  }

  /** The entries written for the sorted keys of the merge, each with its merged text. */
  lemma WrittenEntries(en: seq<Entry>, pl: Dict, keys: seq<string>, out: seq<Entry>)
    requires DistinctKeys(en)
    requires Sorted(keys) && forall k :: k in keys <==> k in Merged(en, pl)
    requires |out| == |keys|
    requires forall i :: 0 <= i < |keys| ==> out[i] == Entry(keys[i], Merged(en, pl)[keys[i]])
    ensures IsWrittenFile(out, en, pl)
  {
    assert KeysInOrder(out) == keys;
    WrittenKeys(en, pl, keys, out);
    WrittenTexts(en, pl, keys, out);
  }

  lemma WrittenKeys(en: seq<Entry>, pl: Dict, keys: seq<string>, out: seq<Entry>)
    requires DistinctKeys(en)
    requires forall k :: k in keys <==> k in Merged(en, pl)
    requires |out| == |keys|
    requires forall i :: 0 <= i < |keys| ==> out[i].key == keys[i]
    ensures KeySet(out) == pl.Keys + KeySet(en)
  {
    MergedContents(en, pl);
    forall k | k in Merged(en, pl)
      ensures k in KeySet(out)
    {
      var i :| 0 <= i < |keys| && keys[i] == k;
      assert out[i] in out;
    }
  }

  lemma WrittenTexts(en: seq<Entry>, pl: Dict, keys: seq<string>, out: seq<Entry>)
    requires DistinctKeys(en)
    requires |out| == |keys|
    requires forall k :: k in keys ==> k in Merged(en, pl)
    requires forall i :: 0 <= i < |keys| ==> out[i] == Entry(keys[i], Merged(en, pl)[keys[i]])
    ensures forall e :: e in out && e.key in pl ==> e.value == pl[e.key]
    ensures forall e :: e in out && e.key !in pl ==> e in en
  {
    MergedContents(en, pl);
    forall e | e in out
      ensures e.key in Merged(en, pl) && e.value == Merged(en, pl)[e.key]
    {
      var i :| 0 <= i < |out| && out[i] == e;
    }
    forall e | e in out && e.key !in pl
      ensures e in en
    {
      var m :| m in en && m.key == e.key;
      assert e.value == m.value;
    }
  }

  /**
   * The branch that writes the file: the missing translations, the merge,
   * the sorted keys and the sorted entries.
   */
  method MergeAndSort(en: seq<Entry>, pl: Dict, missingKeys: seq<Entry>) returns (sortedPl: seq<Entry>)
    requires DistinctKeys(en) && missingKeys == MissingIn(en, pl)
    ensures IsWrittenFile(sortedPl, en, pl)
  {
    var missingTranslations := MissingTranslations(missingKeys);
    var updatedPl := pl + missingTranslations;
    var keys := SortKeys(updatedPl.Keys);
    sortedPl := SortedEntries(updatedPl, keys);
    WrittenEntries(en, pl, keys, sortedPl);
  }

  /** The count printed, and the entries written to the Polish file, if it is written. */
  datatype Report = Report(missingCount: nat, written: Option<seq<Entry>>)

  /**
   * The update: count the missing keys; when there are some, write the
   * merged translations in key order, and otherwise write nothing.
   */
  method UpdatePolish(en: seq<Entry>, pl: Dict) returns (report: Report)
    requires DistinctKeys(en)
    ensures report.missingCount == |MissingIn(en, pl)|
    ensures report.written.None? <==> KeySet(en) <= pl.Keys
    ensures report.written.Some? ==> IsWrittenFile(report.written.value, en, pl)
  {
    var missingKeys := FindMissingKeys(en, pl);
    NothingMissingIffCovered(en, pl);
    if |missingKeys| > 0 {
      var sortedPl := MergeAndSort(en, pl, missingKeys);
      report := Report(|missingKeys|, Some(sortedPl));
    } else {
      report := Report(0, None);
    }
  }
}
