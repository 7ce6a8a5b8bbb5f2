/**
 * File-name rules of the command runner (gst_gui/utils/cli_runner.py):
 * the language-name to language-code mapper, the removal of language-code
 * tokens from a file stem, and the name of the `.srt` file the external
 * `gst translate` tool is told to write.
 *
 * The runner keeps its language codes in a Python `set`, whose iteration
 * order depends on string hashing; the order matters for some names (see
 * `RemovalOrderMatters`), so it is a parameter here (`codeOrder`).
 */
module CliNames {
  import opened Common
  import opened Text

  // ---------------------------------------------------------------------
  // _get_language_code
  // ---------------------------------------------------------------------

  /** The runner's language table, in the dict's insertion order. */
  const LanguageTable: seq<(string, string)> := [
    ("polish", "pl"), ("english", "en"), ("spanish", "es"), ("french", "fr"),
    ("german", "de"), ("italian", "it"), ("portuguese", "pt"), ("russian", "ru"),
    ("japanese", "ja"), ("korean", "ko"), ("chinese", "zh"), ("arabic", "ar"),
    ("hindi", "hi"), ("dutch", "nl"), ("swedish", "sv"), ("norwegian", "no"),
    ("danish", "da"), ("finnish", "fi"), ("turkish", "tr"), ("hebrew", "he"),
    ("greek", "el"), ("czech", "cs"), ("hungarian", "hu"), ("romanian", "ro"),
    ("bulgarian", "bg"), ("croatian", "hr"), ("slovak", "sk"), ("slovenian", "sl"),
    ("estonian", "et"), ("latvian", "lv"), ("lithuanian", "lt")
  ]

  /** Dict lookup `key in table` / `table[key]` (the first entry with that name). */
  function Lookup(table: seq<(string, string)>, key: string): (r: Option<string>)
    ensures r.Some? <==> exists i :: 0 <= i < |table| && table[i].0 == key
    ensures r.Some? ==> exists i :: 0 <= i < |table| && table[i] == (key, r.value)
  {
    if table == [] then None
    else if table[0].0 == key then Some(table[0].1)
    else
      var r := Lookup(table[1..], key);
      assert forall i :: 1 <= i < |table| ==> table[i] == table[1..][i - 1];
      r
  }

  /** The partial-match test of the mapper: one of the two is a prefix of the other. */
  predicate PrefixRelated(name: string, input: string) {
    StartsWith(name, input) || StartsWith(input, name)
  }

  /** Index of the first table entry whose name is prefix-related to `input`, or `|table|`. */
  function FirstRelated(table: seq<(string, string)>, input: string): (j: nat)
    ensures j <= |table|
    ensures j < |table| ==> PrefixRelated(table[j].0, input)
    ensures forall k :: 0 <= k < j ==> !PrefixRelated(table[k].0, input)
  {
    if table == [] then 0
    else if PrefixRelated(table[0].0, input) then 0
    else 1 + FirstRelated(table[1..], input)
  }

  /** `_get_language_code`: the code the runner derives from a language name; never empty, at most two characters. */
  function LanguageCode(language: string): (r: string)
    ensures 1 <= |r| <= 2
  {
    CodesAreShort();
    CodeInLength(LanguageTable, Trim(Lower(language)));
    CodeIn(LanguageTable, Trim(Lower(language)))
  }

  /** Every code of the table has one or two characters. */
  predicate ShortCodes(table: seq<(string, string)>) {
    forall i :: 0 <= i < |table| ==> 1 <= |table[i].1| <= 2
  }

  lemma CodesAreShort()
    ensures ShortCodes(LanguageTable)
  {
  }

  /** Over a table of short codes, the mapping yields a short code. */
  lemma CodeInLength(table: seq<(string, string)>, key: string)
    requires ShortCodes(table)
    ensures 1 <= |CodeIn(table, key)| <= 2
  {
  }

  /** The mapping applied to a normalised (lower-cased, stripped) name, over a given table. */
  function CodeIn(table: seq<(string, string)>, key: string): string {
    match Lookup(table, key)
    case Some(code) => code
    case None =>
      if |key| == 2 && IsAlpha(key[0]) && IsAlpha(key[1]) then key
      else
        var j := FirstRelated(table, key);
        if j < |table| then table[j].1
        else if key != [] then key[..if |key| < 2 then |key| else 2]
        else "en"
  }

  predicate DistinctNames(table: seq<(string, string)>) {
    forall i, j :: 0 <= i < j < |table| ==> table[i].0 != table[j].0
  }

  // Distinctness is checked block by block to keep each proof obligation small.
  lemma NamesDiffer00()
    ensures forall i, j :: 0 <= i < 10 && 0 <= j < 10 && i < j ==> LanguageTable[i].0 != LanguageTable[j].0
  {
  }

  lemma NamesDiffer01()
    ensures forall i, j :: 0 <= i < 10 && 10 <= j < 20 && i < j ==> LanguageTable[i].0 != LanguageTable[j].0
  {
  }

  lemma NamesDiffer02()
    ensures forall i, j :: 0 <= i < 10 && 20 <= j < 31 && i < j ==> LanguageTable[i].0 != LanguageTable[j].0
  {
  }

  lemma NamesDiffer11()
    ensures forall i, j :: 10 <= i < 20 && 10 <= j < 20 && i < j ==> LanguageTable[i].0 != LanguageTable[j].0
  {
  }

  lemma NamesDiffer12()
    ensures forall i, j :: 10 <= i < 20 && 20 <= j < 31 && i < j ==> LanguageTable[i].0 != LanguageTable[j].0
  {
  }

  lemma NamesDiffer22()
    ensures forall i, j :: 20 <= i < 31 && 20 <= j < 31 && i < j ==> LanguageTable[i].0 != LanguageTable[j].0
  {
  }

  lemma NamesAreDistinct()
    ensures DistinctNames(LanguageTable)
  {
    NamesDiffer00();
    NamesDiffer01();
    NamesDiffer02();
    NamesDiffer11();
    NamesDiffer12();
    NamesDiffer22();
  }

  /** Every language name is longer than two letters, so no name is also a code. */
  lemma NamesAreLong()
    ensures LongNames(LanguageTable)
  {
  }

  lemma {:induction false} LookupDistinct(table: seq<(string, string)>, i: nat)
    requires DistinctNames(table) && i < |table|
    ensures Lookup(table, table[i].0) == Some(table[i].1)
  {
    if i > 0 {
      assert table[0].0 != table[i].0;
      assert DistinctNames(table[1..]) by {
        forall a, b | 0 <= a < b < |table[1..]| ensures table[1..][a].0 != table[1..][b].0 {
          assert table[1..][a] == table[a + 1] && table[1..][b] == table[b + 1];
        }
      }
      LookupDistinct(table[1..], i - 1);
    }
  }

  /** A known language name, in any letter case and with surrounding blanks, maps to its code. */
  lemma KnownNameMapsToCode(language: string, i: nat)
    requires i < |LanguageTable| && Trim(Lower(language)) == LanguageTable[i].0
    ensures LanguageCode(language) == LanguageTable[i].1
  {
    NamesAreDistinct();
    LookupDistinct(LanguageTable, i);
  }

  predicate LongNames(table: seq<(string, string)>) {
    forall i :: 0 <= i < |table| ==> |table[i].0| > 2
  }

  lemma TwoLetterKey(table: seq<(string, string)>, key: string)
    requires LongNames(table) && |key| == 2 && IsAlpha(key[0]) && IsAlpha(key[1])
    ensures CodeIn(table, key) == key
  {
    assert forall i :: 0 <= i < |table| ==> table[i].0 != key;
  }

  /** A two-letter alphabetic input is taken as a code and returned lower-cased. */
  lemma TwoLetterInputIsItsOwnCode(language: string)
    requires var key := Trim(Lower(language)); |key| == 2 && IsAlpha(key[0]) && IsAlpha(key[1])
    ensures LanguageCode(language) == Trim(Lower(language))
    ensures forall i :: 0 <= i < |LanguageCode(language)| ==> !IsUpper(LanguageCode(language)[i])
  {
    NamesAreLong();
    TwoLetterKey(LanguageTable, Trim(Lower(language)));
    TrimLowerHasNoUpper(language);
  }

  lemma FirstRelatedKey(table: seq<(string, string)>, key: string, j: nat)
    requires (forall i :: 0 <= i < |table| ==> table[i].0 != key)
    requires !(|key| == 2 && IsAlpha(key[0]) && IsAlpha(key[1]))
    requires j < |table| && PrefixRelated(table[j].0, key)
    requires forall k :: 0 <= k < j ==> !PrefixRelated(table[k].0, key)
    ensures CodeIn(table, key) == table[j].1
  {
    assert FirstRelated(table, key) == j;
  }

  /**
   * Any other unknown input takes the code of the first table name, in table
   * order, that is a prefix of it or that it is a prefix of.
   */
  lemma PartialMatchTakesFirstRelated(language: string, j: nat)
    requires var key := Trim(Lower(language));
      && (forall i :: 0 <= i < |LanguageTable| ==> LanguageTable[i].0 != key)
      && !(|key| == 2 && IsAlpha(key[0]) && IsAlpha(key[1]))
      && j < |LanguageTable| && PrefixRelated(LanguageTable[j].0, key)
      && forall k :: 0 <= k < j ==> !PrefixRelated(LanguageTable[k].0, key)
    ensures LanguageCode(language) == LanguageTable[j].1
  {
    FirstRelatedKey(LanguageTable, Trim(Lower(language)), j);
  }

  lemma EmptyKey(table: seq<(string, string)>)
    requires table != [] && LongNames(table)
    ensures CodeIn(table, []) == table[0].1
  {
    assert forall i :: 0 <= i < |table| ==> table[i].0 != [];
    assert StartsWith(table[0].0, []);
  }

  /**
   * A blank language yields "pl": every name starts with the empty string, so
   * "polish", the first entry, matches and the "en" fallback is never reached.
   */
  lemma BlankLanguageIsPolish(language: string)
    requires IsBlank(language)
    ensures LanguageCode(language) == "pl"
  {
    BlankLowerIsBlank(language);
    NamesAreLong();
    EmptyKey(LanguageTable);
  }

  // ---------------------------------------------------------------------
  // _clean_filename_from_language_codes
  // ---------------------------------------------------------------------

  /**
   * The language codes the runner removes from file stems (a Python set
   * there), written here as its two-letter codes, its three-letter codes and
   * its language names.
   */
  const LanguageCodes: set<string> := TwoLetterCodes + ThreeLetterCodes + LanguageNames

  const TwoLetterCodes: set<string> := {
    "en", "it", "pl", "es", "fr", "de", "pt", "ru", "ja", "ko", "zh", "ar", "hi", "nl", "sv", "no",
    "da", "fi", "tr", "he", "el", "cs", "hu", "ro", "bg", "hr", "sk", "sl", "et", "lv", "lt"
  }

  const ThreeLetterCodes: set<string> := {
    "eng", "ita", "pol", "esp", "fra", "ger", "por", "rus", "jpn", "kor", "chi", "ara", "hin", "dut", "swe", "nor",
    "dan", "fin", "tur", "heb", "gre", "cze", "hun", "rum", "bul", "cro", "slo", "slv", "est", "lat", "lit"
  }

  const LanguageNames: set<string> := {
    "english", "italian", "italiano", "polish", "polski", "spanish", "espanol", "french", "francais",
    "german", "deutsch", "portuguese", "portugues", "russian", "japanese", "korean", "chinese", "arabic",
    "hindi", "dutch", "swedish", "norwegian", "danish", "finnish", "turkish", "hebrew", "greek", "czech",
    "hungarian", "romanian", "bulgarian", "croatian", "slovak", "slovenian", "estonian", "latvian", "lithuanian"
  }

  /** The three removal patterns, applied in this order for each code. */
  datatype CodePattern =
    | DotCode        // \.code(?=\.|$)
    | SeparatorCode  // [\-_]code(?=[\-_\.]|$)
    | LeadingCode    // ^code[\-_\.]

  const Patterns: seq<CodePattern> := [DotCode, SeparatorCode, LeadingCode]

  /** The separators the stem tidy-up trims from both ends. */
  const TrimmedSeparators: set<char> := {'.', '-', '_', ' '}

  /** Python's `$` without MULTILINE: the end, or just before a final newline. */
  predicate AtEnd(s: string, j: nat) {
    j == |s| || (j + 1 == |s| && s[j] == '\n')
  }

  /** `code` occurs at `j`, ignoring letter case (the IGNORECASE flag). */
  predicate CodeAt(s: string, code: string, j: nat) {
    j + |code| <= |s| && Lower(s[j..j + |code|]) == Lower(code)
  }

  /** Whether `pattern` for `code` matches at position `i`; a match is `|code| + 1` long. */
  predicate MatchesAt(s: string, pattern: CodePattern, code: string, i: nat)
    ensures MatchesAt(s, pattern, code, i) ==> i + |code| + 1 <= |s|
  {
    match pattern
    case DotCode =>
      i < |s| && s[i] == '.' && CodeAt(s, code, i + 1)
      && (AtEnd(s, i + 1 + |code|) || (i + 1 + |code| < |s| && s[i + 1 + |code|] == '.'))
    case SeparatorCode =>
      i < |s| && s[i] in {'-', '_'} && CodeAt(s, code, i + 1)
      && (AtEnd(s, i + 1 + |code|) || (i + 1 + |code| < |s| && s[i + 1 + |code|] in {'-', '_', '.'}))
    case LeadingCode =>
      i == 0 && CodeAt(s, code, 0) && |code| < |s| && s[|code|] in {'-', '_', '.'}
  }

  /** `re.sub(pattern, '', s[i:])` scanning from `i`: matches are removed left to right. */
  function SubFrom(s: string, pattern: CodePattern, code: string, i: nat): (r: string)
    requires i <= |s|
    ensures |r| <= |s| - i
    decreases |s| - i
  {
    if i == |s| then []
    else if MatchesAt(s, pattern, code, i) then SubFrom(s, pattern, code, i + |code| + 1)
    else [s[i]] + SubFrom(s, pattern, code, i + 1)
  }

  function Sub(s: string, pattern: CodePattern, code: string): (r: string)
    ensures |r| <= |s|
  {
    SubFrom(s, pattern, code, 0)
  }

  /** The three patterns for `code`, from `Patterns[k]` on. */
  function ApplyPatterns(s: string, code: string, k: nat): (r: string)
    requires k <= |Patterns|
    ensures |r| <= |s|
    decreases |Patterns| - k
  {
    if k == |Patterns| then s else ApplyPatterns(Sub(s, Patterns[k], code), code, k + 1)
  }

  /** All codes, in iteration order. */
  function RemoveCodes(s: string, codes: seq<string>): (r: string)
    ensures |r| <= |s|
    decreases codes
  {
    if codes == [] then s else RemoveCodes(ApplyPatterns(s, codes[0], 0), codes[1..])
  }

  /** `re.sub(c + '+', c, s)`: every run of `c` becomes a single `c`. */
  function Collapse(s: string, c: char): (r: string)
    ensures |r| <= |s|
    ensures s != [] ==> r != [] && r[0] == s[0]
  {
    if |s| < 2 then s
    else if s[0] == c && s[1] == c then Collapse(s[1..], c)
    else [s[0]] + Collapse(s[1..], c)
  }

  /** No two adjacent `c` in `s`. */
  predicate NoRun(s: string, c: char) {
    forall i :: 0 <= i < |s| - 1 ==> !(s[i] == c && s[i + 1] == c)
  }

  lemma {:induction false} CollapseNoRun(s: string, c: char)
    ensures NoRun(Collapse(s, c), c)
  {
    if |s| >= 2 {
      CollapseNoRun(s[1..], c);
      var t := Collapse(s[1..], c);
      if !(s[0] == c && s[1] == c) {
        assert t[0] == s[1];
        assert forall i :: 1 <= i < |[s[0]] + t| ==> ([s[0]] + t)[i] == t[i - 1];
      }
    }
  }

  lemma {:induction false} CollapseKeepsNoRun(s: string, c: char, d: char)
    requires c != d && NoRun(s, d)
    ensures NoRun(Collapse(s, c), d)
  {
    if |s| >= 2 {
      assert NoRun(s[1..], d) by {
        forall i | 0 <= i < |s[1..]| - 1 ensures !(s[1..][i] == d && s[1..][i + 1] == d) {
          assert s[1..][i] == s[i + 1] && s[1..][i + 1] == s[i + 2];
        }
      }
      CollapseKeepsNoRun(s[1..], c, d);
      var t := Collapse(s[1..], c);
      if !(s[0] == c && s[1] == c) {
        assert t[0] == s[1];
        assert forall i :: 1 <= i < |[s[0]] + t| ==> ([s[0]] + t)[i] == t[i - 1];
      }
    }
  }

  lemma NoRunSlice(s: string, c: char, a: nat, b: nat)
    requires NoRun(s, c) && a <= b <= |s|
    ensures NoRun(s[a..b], c)
  {
    assert forall i :: 0 <= i < b - a ==> s[a..b][i] == s[a + i];
  }

  /** The tidy-up after removal: collapse runs of '.', '-', '_' and trim separators and blanks. */
  function Tidy(s: string): (r: string)
    ensures |r| <= |s|
  {
    StripChars(Collapse(Collapse(Collapse(s, '.'), '-'), '_'), TrimmedSeparators)
  }

  /** Tidied text has no runs of separators and no separator or blank at either end. */
  lemma TidyIsClean(s: string)
    ensures var r := Tidy(s);
      && NoRun(r, '.') && NoRun(r, '-') && NoRun(r, '_')
      && (r != [] ==> r[0] !in TrimmedSeparators && r[|r| - 1] !in TrimmedSeparators)
  {
    var d := Collapse(s, '.');
    var h := Collapse(d, '-');
    var u := Collapse(h, '_');
    CollapseNoRun(s, '.');
    CollapseKeepsNoRun(d, '-', '.');
    CollapseNoRun(d, '-');
    CollapseKeepsNoRun(h, '_', '.');
    CollapseKeepsNoRun(h, '_', '-');
    CollapseNoRun(h, '_');
    var l := StripLeft(u, TrimmedSeparators);
    var r := StripRight(l, TrimmedSeparators);
    StripLeftSuffix(u, TrimmedSeparators);
    StripRightPrefix(l, TrimmedSeparators);
    assert r == Tidy(s);
    NoRunSlice(u, '.', |u| - |l|, |u|);
    NoRunSlice(u, '-', |u| - |l|, |u|);
    NoRunSlice(u, '_', |u| - |l|, |u|);
    NoRunSlice(l, '.', 0, |r|);
    NoRunSlice(l, '-', 0, |r|);
    NoRunSlice(l, '_', 0, |r|);
    assert r != [] ==> r[0] == l[0];
  }

  /** The cleaned stem: the tidied removal result, or the original stem when that is empty. */
  function CleanedStem(stem: string, codeOrder: seq<string>): (r: string)
    ensures |r| <= |stem|
    ensures r == [] <==> stem == []
  {
    var t := Tidy(RemoveCodes(stem, codeOrder));
    if t == [] then stem else t
  }

  /**
   * `_clean_filename_from_language_codes`: for each code, in the set's
   * iteration order, each of the three patterns is substituted away, then
   * the result is tidied.
   */
  method CleanFilenameFromLanguageCodes(stem: string, codeOrder: seq<string>) returns (r: string)
    ensures |r| <= |stem|
    ensures Tidy(RemoveCodes(stem, codeOrder)) == [] ==> r == stem
    ensures Tidy(RemoveCodes(stem, codeOrder)) != [] ==>
      && r == Tidy(RemoveCodes(stem, codeOrder))
      && NoRun(r, '.') && NoRun(r, '-') && NoRun(r, '_')
      && r[0] !in TrimmedSeparators && r[|r| - 1] !in TrimmedSeparators
  {
    var result := stem;
    for k := 0 to |codeOrder|
      invariant RemoveCodes(result, codeOrder[k..]) == RemoveCodes(stem, codeOrder)
    {
      var before := result;
      for p := 0 to |Patterns|
        invariant ApplyPatterns(result, codeOrder[k], p) == ApplyPatterns(before, codeOrder[k], 0)
      {
        result := Sub(result, Patterns[p], codeOrder[k]);
      }
      assert codeOrder[k..][1..] == codeOrder[k + 1..];
    }
    assert codeOrder[|codeOrder|..] == [];
    var tidied := Tidy(result);
    TidyIsClean(result);
    r := if tidied == [] then stem else tidied;
  }

  /** Without '.', '-' or '_' no pattern can match, so removal leaves the text unchanged. */
  lemma {:induction false} NoSeparatorSubFrom(s: string, pattern: CodePattern, code: string, i: nat)
    requires i <= |s| && '.' !in s && '-' !in s && '_' !in s
    ensures SubFrom(s, pattern, code, i) == s[i..]
    decreases |s| - i
  {
    if i < |s| {
      assert !MatchesAt(s, pattern, code, i) by {
        if pattern == LeadingCode && i == 0 && |code| < |s| { assert s[|code|] in s; }
        if pattern != LeadingCode { assert s[i] in s; }
      }
      NoSeparatorSubFrom(s, pattern, code, i + 1);
    }
  }

  lemma {:induction false} NoSeparatorUntouched(s: string, codes: seq<string>)
    requires '.' !in s && '-' !in s && '_' !in s
    ensures RemoveCodes(s, codes) == s
  {
    if codes != [] {
      forall pattern: CodePattern ensures Sub(s, pattern, codes[0]) == s {
        NoSeparatorSubFrom(s, pattern, codes[0], 0);
      }
      assert ApplyPatterns(s, codes[0], 0) == s;
      NoSeparatorUntouched(s, codes[1..]);
    }
  }

  /** Positions where the pattern does not match are copied through unchanged. */
  lemma {:induction false} SubFromSkip(s: string, pattern: CodePattern, code: string, i: nat, j: nat)
    requires i <= j <= |s|
    requires forall k :: i <= k < j ==> !MatchesAt(s, pattern, code, k)
    ensures SubFrom(s, pattern, code, i) == s[i..j] + SubFrom(s, pattern, code, j)
    decreases j - i
  {
    if i < j {
      assert SubFrom(s, pattern, code, i) == [s[i]] + SubFrom(s, pattern, code, i + 1);
      SubFromSkip(s, pattern, code, i + 1, j);
      AppendAssoc([s[i]], s[i + 1..j], SubFrom(s, pattern, code, j));
      SliceCons(s, i, j);
    }
  }

  lemma NoMatchUntouched(s: string, pattern: CodePattern, code: string)
    requires forall k :: 0 <= k < |s| ==> !MatchesAt(s, pattern, code, k)
    ensures Sub(s, pattern, code) == s
  {
    SubFromSkip(s, pattern, code, 0, |s|);
  }

  /** The leading pattern can only match at the start, so it removes at most one prefix. */
  lemma LeadingSub(s: string, code: string)
    ensures Sub(s, LeadingCode, code) ==
      if MatchesAt(s, LeadingCode, code, 0) then s[|code| + 1..] else s
  {
    if MatchesAt(s, LeadingCode, code, 0) {
      SubFromSkip(s, LeadingCode, code, |code| + 1, |s|);
    } else {
      SubFromSkip(s, LeadingCode, code, 0, |s|);
    }
  }

  /** A final `.token` equal to `code` up to letter case is removed; nothing before it is. */
  lemma TrailingTokenRemoved(base: string, token: string, code: string)
    requires '.' !in base && |token| == |code| && Lower(token) == Lower(code)
    ensures Sub(base + "." + token, DotCode, code) == base
  {
    var s := base + "." + token;
    forall k | 0 <= k < |base| ensures !MatchesAt(s, DotCode, code, k) {
      assert s[k] == base[k];
    }
    SubFromSkip(s, DotCode, code, 0, |base|);
    assert s[|base| + 1..|base| + 1 + |code|] == token;
    assert MatchesAt(s, DotCode, code, |base|);
    assert s[..|base|] == base;
  }

  lemma ApplyPatternsInOrder(s: string, code: string)
    ensures ApplyPatterns(s, code, 0) ==
      Sub(Sub(Sub(s, DotCode, code), SeparatorCode, code), LeadingCode, code)
  {
  }

  /** Stems without runs of '.', '-', '_' and without separators at the ends are already tidy. */
  lemma TidyUntouched(s: string)
    requires '.' !in s && '-' !in s && '_' !in s
    requires s != [] ==> s[0] !in TrimmedSeparators && s[|s| - 1] !in TrimmedSeparators
    ensures Tidy(s) == s
  {
    CollapseAbsent(s, '.');
    CollapseAbsent(s, '-');
    CollapseAbsent(s, '_');
  }

  lemma {:induction false} CollapseAbsent(s: string, c: char)
    requires c !in s
    ensures Collapse(s, c) == s
  {
    if |s| >= 2 {
      assert s[0] in s;
      CollapseAbsent(s[1..], c);
    }
  }

  /**
   * Matching ignores letter case, and a code only matches a whole token:
   * "en" leaves "Movie.ENG" alone and "eng" removes its ".ENG".
   */
  lemma CodeMatchIgnoresCase(stem: string, codes: seq<string>)
    requires stem == "Movie.ENG" && codes == ["en", "eng"]
    ensures CleanedStem(stem, codes) == "Movie"
  {
    ShortCodeKeepsLongerToken(stem, codes[0]);
    LongCodeRemovesToken(stem, codes[1]);
    assert codes[1..][1..] == [];
    assert RemoveCodes(stem, codes[1..]) == "Movie";
    assert RemoveCodes(stem, codes) == "Movie";
    TidyUntouched("Movie");
  }

  lemma LongCodeRemovesToken(s: string, code: string)
    requires s == "Movie.ENG" && code == "eng"
    ensures ApplyPatterns(s, code, 0) == "Movie"
  {
    var base := s[..5];
    assert base == "Movie" && s == base + "." + s[6..];
    TrailingTokenRemoved(base, s[6..], code);
    ApplyPatternsInOrder(s, code);
    NoSeparatorSubFrom(base, SeparatorCode, code, 0);
    NoSeparatorSubFrom(base, LeadingCode, code, 0);
  }

  lemma ShortCodeKeepsLongerToken(s: string, code: string)
    requires s == "Movie.ENG" && code == "en"
    ensures ApplyPatterns(s, code, 0) == s
  {
    forall k | 0 <= k < |s| ensures !MatchesAt(s, DotCode, code, k) {
      assert k != 5 ==> s[k] != '.';
    }
    forall k | 0 <= k < |s| ensures !MatchesAt(s, SeparatorCode, code, k) {
      assert s[k] != '-' && s[k] != '_';
    }
    NoMatchUntouched(s, DotCode, code);
    NoMatchUntouched(s, SeparatorCode, code);
    assert Lower(s[0..2]) != Lower(code);
    LeadingSub(s, code);
    ApplyPatternsInOrder(s, code);
  }

  /**
   * Whatever order the set is iterated in, the program's own codes turn
   * "Movie.ENG" into "Movie": only "eng" matches, and once its ".ENG" is gone
   * no separator is left for another code to match.
   */
  lemma MovieEngCleaned(stem: string, codeOrder: seq<string>)
    requires stem == "Movie.ENG"
    requires forall c :: c in codeOrder <==> c in LanguageCodes
    ensures CleanedStem(stem, codeOrder) == "Movie"
  {
    assert "eng" in ThreeLetterCodes;
    forall c | c in codeOrder ensures c == "eng" || ReadsAsNeither(c) {
      LanguageCodeSpellings(c);
    }
    RemoveMovieEng(stem, codeOrder);
    MovieIsTidy();
  }

  lemma MovieIsTidy()
    ensures Tidy("Movie") == "Movie"
  {
    TidyUntouched("Movie");
  }

  /** `code` reads neither as "eng" nor as "movie", ignoring case. */
  predicate ReadsAsNeither(code: string) {
    Lower(code) != "eng" && Lower(code) != "movie"
  }

  /** Removal over codes that include "eng" and otherwise read as neither leaves "Movie" of "Movie.ENG". */
  lemma {:induction false} RemoveMovieEng(s: string, codes: seq<string>)
    requires s == "Movie.ENG" && "eng" in codes
    requires forall c :: c in codes ==> c == "eng" || ReadsAsNeither(c)
    ensures RemoveCodes(s, codes) == "Movie"
    decreases codes
  {
    if codes[0] == "eng" {
      LongCodeRemovesToken(s, codes[0]);
      NoSeparatorUntouched("Movie", codes[1..]);
    } else {
      assert codes[0] in codes;
      OtherCodeKeepsMovieEng(s, codes[0]);
      assert codes == [codes[0]] + codes[1..];
      RemoveMovieEng(s, codes[1..]);
    }
  }

  lemma MovieEngLowered()
    ensures Lower("Movie") == "movie" && Lower("ENG") == "eng"
  {
  }

  /** A code that reads neither as "eng" nor as "movie" leaves "Movie.ENG" unchanged. */
  lemma OtherCodeKeepsMovieEng(s: string, code: string)
    requires s == "Movie.ENG" && ReadsAsNeither(code)
    ensures ApplyPatterns(s, code, 0) == s
  {
    MovieEngNoDotCode(s, code);
    MovieEngNoSeparatorCode(s, code);
    MovieEngNoLeadingCode(s, code);
    ApplyPatternsInOrder(s, code);
  }

  lemma MovieEngNoDotCode(s: string, code: string)
    requires s == "Movie.ENG" && ReadsAsNeither(code)
    ensures Sub(s, DotCode, code) == s
  {
    assert s[6..9] == "ENG";
    MovieEngLowered();
    forall k | 0 <= k < |s| ensures !MatchesAt(s, DotCode, code, k) {
      assert k != 5 ==> s[k] != '.';
      assert 6 + |code| < |s| ==> s[6 + |code|] != '.';
    }
    NoMatchUntouched(s, DotCode, code);
  }

  lemma MovieEngNoSeparatorCode(s: string, code: string)
    requires s == "Movie.ENG"
    ensures Sub(s, SeparatorCode, code) == s
  {
    forall k | 0 <= k < |s| ensures !MatchesAt(s, SeparatorCode, code, k) {
      assert s[k] != '-' && s[k] != '_';
    }
    NoMatchUntouched(s, SeparatorCode, code);
  }

  lemma MovieEngNoLeadingCode(s: string, code: string)
    requires s == "Movie.ENG" && ReadsAsNeither(code)
    ensures Sub(s, LeadingCode, code) == s
  {
    assert s[0..5] == "Movie";
    MovieEngLowered();
    assert |code| < |s| && |code| != 5 ==> s[|code|] !in {'-', '_', '.'};
    LeadingSub(s, code);
  }

  /** Of the program's codes, only "eng" reads as "eng" or as "movie" ignoring case. */
  lemma LanguageCodeSpellings(c: string)
    requires c in LanguageCodes
    ensures c == "eng" || ReadsAsNeither(c)
  {
    ThreeLetterSpellings(c);
    FiveLetterSpellings(c);
    SpellingsFromLetters(c);
  }

  /** The three-letter codes: "eng" is the only one spelt e, n, g in either case. */
  lemma ThreeLetterSpellings(c: string)
    requires c in LanguageCodes
    ensures |c| == 3 && c != "eng" ==>
      (c[0] != 'e' && c[0] != 'E') || (c[1] != 'n' && c[1] != 'N') || (c[2] != 'g' && c[2] != 'G')
  {
    if |c| == 3 {
      ThreeLetterMembers(c);
    }
  }

  /** Every three-letter member of the set is one of the three-letter codes. */
  lemma ThreeLetterMembers(c: string)
    requires c in LanguageCodes && |c| == 3
    ensures c in ThreeLetterCodes
  {
    if c in TwoLetterCodes {
      TwoLetterLength(c);
    } else if c in LanguageNames {
      NameLength(c);
    }
  }

  lemma TwoLetterLength(c: string)
    requires c in TwoLetterCodes
    ensures |c| == 2
  {
  }

  lemma NameLength(c: string)
    requires c in LanguageNames
    ensures |c| >= 5
  {
  }

  /** The five-letter names: none starts with an m in either case. */
  lemma FiveLetterSpellings(c: string)
    requires c in LanguageCodes
    ensures |c| == 5 ==> c[0] != 'm' && c[0] != 'M'
  {
    if |c| == 5 {
      if c in TwoLetterCodes {
        TwoLetterLength(c);
      } else if c in ThreeLetterCodes {
        ThreeLetterLength(c);
      } else {
        FiveLetterNames(c);
      }
    }
  }

  lemma ThreeLetterLength(c: string)
    requires c in ThreeLetterCodes
    ensures |c| == 3
  {
  }

  lemma FiveLetterNames(c: string)
    requires c in LanguageNames && |c| == 5
    ensures c == "hindi" || c == "dutch" || c == "greek" || c == "czech"
  {
  }

  /** Lower-casing turns a letter into "e", "n", "g" or "m" only from that letter in either case. */
  lemma SpellingsFromLetters(c: string)
    requires |c| == 3 && c != "eng" ==>
      (c[0] != 'e' && c[0] != 'E') || (c[1] != 'n' && c[1] != 'N') || (c[2] != 'g' && c[2] != 'G')
    requires |c| == 5 ==> c[0] != 'm' && c[0] != 'M'
    ensures c == "eng" || ReadsAsNeither(c)
  {
    if |c| == 3 {
      assert Lower(c)[0] == LowerChar(c[0]) && Lower(c)[1] == LowerChar(c[1]) && Lower(c)[2] == LowerChar(c[2]);
    }
    if |c| == 5 {
      assert Lower(c)[0] == LowerChar(c[0]);
    }
  }

  /** When nothing is left after removal and tidying, the stem is kept as it was. */
  lemma EmptyCleanKeepsStem(s: string, codes: seq<string>)
    requires s == "en." && codes == ["en"]
    ensures CleanedStem(s, codes) == s
  {
    var code := codes[0];
    forall k | 0 <= k < |s| ensures !MatchesAt(s, DotCode, code, k) {
    }
    forall k | 0 <= k < |s| ensures !MatchesAt(s, SeparatorCode, code, k) {
      assert s[k] != '-' && s[k] != '_';
    }
    NoMatchUntouched(s, DotCode, code);
    NoMatchUntouched(s, SeparatorCode, code);
    assert MatchesAt(s, LeadingCode, code, 0);
    LeadingSub(s, code);
    ApplyPatternsInOrder(s, code);
    assert RemoveCodes(s, codes) == [];
    assert Tidy([]) == [];
  }

  /** The set's iteration order can change the result: "no.en" gives "en" or "no". */
  lemma RemovalOrderMatters(s: string, noFirst: seq<string>, enFirst: seq<string>)
    requires s == "no.en" && noFirst == ["no", "en"] && enFirst == ["en", "no"]
    ensures CleanedStem(s, noFirst) == "en"
    ensures CleanedStem(s, enFirst) == "no"
  {
    LeadingCodeRemovedFirst(s, noFirst);
    TrailingCodeRemovedFirst(s, enFirst);
  }

  lemma LeadingCodeRemovedFirst(s: string, codes: seq<string>)
    requires s == "no.en" && codes == ["no", "en"]
    ensures CleanedStem(s, codes) == "en"
  {
    var code, rest := codes[0], s[3..];
    assert rest == "en";
    forall k | 0 <= k < |s| ensures !MatchesAt(s, DotCode, code, k) {
      assert k != 2 ==> s[k] != '.';
      assert Lower(s[3..5]) != Lower(code);
    }
    forall k | 0 <= k < |s| ensures !MatchesAt(s, SeparatorCode, code, k) {
      assert s[k] != '-' && s[k] != '_';
    }
    NoMatchUntouched(s, DotCode, code);
    NoMatchUntouched(s, SeparatorCode, code);
    assert MatchesAt(s, LeadingCode, code, 0);
    LeadingSub(s, code);
    ApplyPatternsInOrder(s, code);
    assert ApplyPatterns(s, code, 0) == rest;
    NoSeparatorUntouched(rest, codes[1..]);
    assert RemoveCodes(s, codes) == rest;
    TidyUntouched(rest);
  }

  lemma TrailingCodeRemovedFirst(s: string, codes: seq<string>)
    requires s == "no.en" && codes == ["en", "no"]
    ensures CleanedStem(s, codes) == "no"
  {
    var code, base := codes[0], s[..2];
    assert base == "no" && s == base + "." + s[3..];
    TrailingTokenRemoved(base, s[3..], code);
    ApplyPatternsInOrder(s, code);
    NoSeparatorSubFrom(base, SeparatorCode, code, 0);
    NoSeparatorSubFrom(base, LeadingCode, code, 0);
    assert ApplyPatterns(s, code, 0) == base;
    NoSeparatorUntouched(base, codes[1..]);
    assert RemoveCodes(s, codes) == base;
    TidyUntouched(base);
  }

  // ---------------------------------------------------------------------
  // _get_output_file_path
  // ---------------------------------------------------------------------

  /** `<cleaned stem>.<language code>.srt`, in the directory of `file`. */
  function OutputFilePath(file: string, languageCode: string, codeOrder: seq<string>): (r: string)
    ensures StartsWith(r, file[..LastIndexOf(file, '/') + 1])
  {
    Sibling(file, CleanedStem(Stem(PathName(file)), codeOrder) + ("." + languageCode + ".srt"))
  }

  /** Whatever the input, the output is an `.srt` file named for the language code. */
  lemma OutputPathSuffix(file: string, languageCode: string, codeOrder: seq<string>)
    ensures EndsWith(OutputFilePath(file, languageCode, codeOrder), "." + languageCode + ".srt")
  {
    var suffix := "." + languageCode + ".srt";
    var stem := CleanedStem(Stem(PathName(file)), codeOrder);
    var dir := file[..LastIndexOf(file, '/') + 1];
    assert OutputFilePath(file, languageCode, codeOrder) == (dir + stem) + suffix;
  }

  /** A stem without separators or blanks at its ends survives cleaning whatever the codes. */
  lemma CleanPlain(stem: string, codeOrder: seq<string>)
    requires stem != [] && '.' !in stem && '-' !in stem && '_' !in stem
    requires stem[0] !in TrimmedSeparators && stem[|stem| - 1] !in TrimmedSeparators
    ensures CleanedStem(stem, codeOrder) == stem
  {
    NoSeparatorUntouched(stem, codeOrder);
    TidyUntouched(stem);
  }

  lemma PlainOutputPath(file: string, stem: string, languageCode: string, codeOrder: seq<string>)
    requires '/' !in file && Stem(file) == stem && CleanedStem(stem, codeOrder) == stem
    ensures OutputFilePath(file, languageCode, codeOrder) == stem + "." + languageCode + ".srt"
  {
    FlatName(file);
    var leaf := stem + ("." + languageCode + ".srt");
    SiblingFlat(file, leaf);
    assert OutputFilePath(file, languageCode, codeOrder) == Sibling(file, leaf);
    AppendAssoc(stem, ".", languageCode);
    AppendAssoc(stem + ".", languageCode, ".srt");
    AppendAssoc(stem, "." + languageCode, ".srt");
  }

  /** A file `<stem>.<ext>` in the current directory is translated to `<stem>.<code>.srt`. */
  lemma DottedOutput(stem: string, ext: string, languageCode: string, codeOrder: seq<string>)
    requires stem != [] && '.' !in stem && '-' !in stem && '_' !in stem && '/' !in stem
    requires stem[0] !in TrimmedSeparators && stem[|stem| - 1] !in TrimmedSeparators
    requires ext != [] && '.' !in ext && '/' !in ext
    ensures OutputFilePath(stem + "." + ext, languageCode, codeOrder) == stem + "." + languageCode + ".srt"
  {
    var file := stem + "." + ext;
    StemAt(file, |stem|);
    assert file[..|stem|] == stem;
    CleanPlain(stem, codeOrder);
    PlainOutputPath(file, stem, languageCode, codeOrder);
  }

  /** A file without any suffix is translated to `<name>.<code>.srt`. */
  lemma UndottedOutput(name: string, languageCode: string, codeOrder: seq<string>)
    requires name != [] && '.' !in name && '-' !in name && '_' !in name && '/' !in name
    requires name[0] !in TrimmedSeparators && name[|name| - 1] !in TrimmedSeparators
    ensures OutputFilePath(name, languageCode, codeOrder) == name + "." + languageCode + ".srt"
  {
    StemNoDot(name);
    CleanPlain(name, codeOrder);
    PlainOutputPath(name, name, languageCode, codeOrder);
  }
}
