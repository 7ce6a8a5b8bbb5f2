/**
 * ASCII model of the Python string and path operations the application uses:
 * `str.lower`, `str.strip`, `str.rstrip`, `startswith`, `endswith`, `in`,
 * `count`, `split(c)[0]`, and the `name`, `stem` and `parent` of a
 * `pathlib.Path` built from a normalised POSIX path.
 */
module Text {

  /** The ASCII characters Python's `str.isspace` accepts (used by `strip()` and `\s`). */
  const Whitespace: set<char> :=
    {' ', '\t', '\n', '\r', '\U{0B}', '\U{0C}', '\U{1C}', '\U{1D}', '\U{1E}', '\U{1F}'}

  predicate IsUpper(c: char) { 'A' <= c <= 'Z' }
  predicate IsLowerLetter(c: char) { 'a' <= c <= 'z' }
  predicate IsAlpha(c: char) { IsUpper(c) || IsLowerLetter(c) }
  predicate IsDigit(c: char) { '0' <= c <= '9' }

  function LowerChar(c: char): (r: char)
    ensures !IsUpper(r)
    ensures IsAlpha(c) <==> IsAlpha(r)
    ensures IsDigit(c) <==> IsDigit(r)
    ensures !IsUpper(c) ==> r == c
  {
    if IsUpper(c) then (c as int + 32) as char else c
  }

  /** `s.lower()` on ASCII: every upper-case letter becomes lower case, nothing else changes. */
  function Lower(s: string): (r: string)
    ensures |r| == |s|
    ensures forall i :: 0 <= i < |s| ==> r[i] == LowerChar(s[i])
  {
    if s == [] then [] else [LowerChar(s[0])] + Lower(s[1..])
  }

  lemma LowerIdempotent(s: string)
    ensures Lower(Lower(s)) == Lower(s)
  {
  }

  lemma LowerAppend(a: string, b: string)
    ensures Lower(a + b) == Lower(a) + Lower(b)
  {
  }

  /** `s.lstrip(chars)`: drop the longest prefix made of characters in `cs`. */
  function StripLeft(s: string, cs: set<char>): (r: string)
    ensures |r| <= |s|
    ensures r != [] ==> r[0] !in cs
    ensures forall i :: 0 <= i < |s| - |r| ==> s[i] in cs
  {
    if s != [] && s[0] in cs then StripLeft(s[1..], cs) else s
  }

  /** What `lstrip` leaves is a suffix of its input. */
  lemma {:induction false} StripLeftSuffix(s: string, cs: set<char>)
    ensures StripLeft(s, cs) == s[|s| - |StripLeft(s, cs)|..]
  {
    if s != [] && s[0] in cs {
      StripLeftSuffix(s[1..], cs);
    }
  }

  /** `s.rstrip(chars)`: drop the longest suffix made of characters in `cs`. */
  function StripRight(s: string, cs: set<char>): (r: string)
    ensures |r| <= |s|
    ensures r != [] ==> r[|r| - 1] !in cs
    ensures forall i :: |r| <= i < |s| ==> s[i] in cs
  {
    if s != [] && s[|s| - 1] in cs then StripRight(s[..|s| - 1], cs) else s
  }

  /** What `rstrip` leaves is a prefix of its input. */
  lemma {:induction false} StripRightPrefix(s: string, cs: set<char>)
    ensures StripRight(s, cs) == s[..|StripRight(s, cs)|]
  {
    if s != [] && s[|s| - 1] in cs {
      StripRightPrefix(s[..|s| - 1], cs);
    }
  }

  /** `s.strip(chars)`. */
  function StripChars(s: string, cs: set<char>): string {
    StripRight(StripLeft(s, cs), cs)
  }

  /** `s.strip()` with no argument. */
  function Trim(s: string): string {
    StripChars(s, Whitespace)
  }

  /** `s.rstrip()` with no argument. */
  function TrimRight(s: string): string {
    StripRight(s, Whitespace)
  }

  /** Whether `s` is blank: nothing but whitespace (Python's `not s.strip()`, by StripBlank). */
  predicate IsBlank(s: string) {
    forall i :: 0 <= i < |s| ==> s[i] in Whitespace
  }

  /** `s.strip()` is empty exactly when `s` is blank. */
  lemma StripBlank(s: string)
    ensures Trim(s) == [] <==> IsBlank(s)
  {
    var l := StripLeft(s, Whitespace);
    StripLeftSuffix(s, Whitespace);
    if l != [] {
      assert l[0] !in Whitespace;
      assert s[|s| - |l|] !in Whitespace;
      assert StripRight(l, Whitespace) != [];
    }
  }

  lemma BlankLowerIsBlank(s: string)
    requires IsBlank(s)
    ensures Trim(Lower(s)) == []
  {
    StripBlank(Lower(s));
  }

  lemma TrimLowerHasNoUpper(s: string)
    ensures forall i :: 0 <= i < |Trim(Lower(s))| ==> !IsUpper(Trim(Lower(s))[i])
  {
    var low := Lower(s);
    var l := StripLeft(low, Whitespace);
    var t := Trim(low);
    StripLeftSuffix(low, Whitespace);
    StripRightPrefix(l, Whitespace);
    forall k | 0 <= k < |t| ensures !IsUpper(t[k]) {
      assert t == l[..|t|];
      assert l == low[|low| - |l|..];
      assert t[k] == low[|low| - |l| + k];
    }
  }

  predicate StartsWith(s: string, prefix: string) {
    |prefix| <= |s| && s[..|prefix|] == prefix
  }

  predicate EndsWith(s: string, suffix: string) {
    |suffix| <= |s| && s[|s| - |suffix|..] == suffix
  }

  /** `sub in s`. */
  predicate Contains(s: string, sub: string)
    decreases |s|
  {
    StartsWith(s, sub) || (s != [] && Contains(s[1..], sub))
  }

  lemma ContainsAt(s: string, sub: string, i: nat)
    requires i + |sub| <= |s| && s[i..i + |sub|] == sub
    ensures Contains(s, sub)
  {
    if i > 0 {
      assert s[1..][i - 1..i - 1 + |sub|] == sub;
      ContainsAt(s[1..], sub, i - 1);
    }
  }

  /** `s.count(c)` for a single character. */
  function Count(s: string, c: char): (n: nat)
    ensures n <= |s|
  {
    if s == [] then 0 else (if s[0] == c then 1 else 0) + Count(s[1..], c)
  }

  /** `s.split(c)[0]`: the text before the first `c`, or all of `s`. */
  function BeforeFirst(s: string, c: char): (r: string)
    ensures StartsWith(s, r)
    ensures c !in r
    ensures |r| < |s| ==> s[|r|] == c
  {
    if s == [] || s[0] == c then [] else [s[0]] + BeforeFirst(s[1..], c)
  }

  /** Index of the last `c` in `s`, if any (`str.rfind`). */
  function LastIndexOf(s: string, c: char): (r: int)
    ensures -1 <= r < |s|
    ensures r >= 0 ==> s[r] == c
    ensures forall i :: r < i < |s| ==> s[i] != c
  {
    if s == [] then -1
    else if s[|s| - 1] == c then |s| - 1
    else LastIndexOf(s[..|s| - 1], c)
  }

  // ---------------------------------------------------------------------
  // pathlib.Path on a normalised POSIX path (no trailing or doubled '/')
  // ---------------------------------------------------------------------

  /** `Path(p).name`: the last component. */
  function PathName(p: string): (r: string)
    ensures '/' !in r
    ensures EndsWith(p, r)
  {
    p[LastIndexOf(p, '/') + 1..]
  }

  lemma FlatName(p: string)
    requires '/' !in p
    ensures PathName(p) == p
  {
  }

  lemma NameAfter(p: string, i: nat)
    requires i < |p| && p[i] == '/' && forall j :: i < j < |p| ==> p[j] != '/'
    ensures PathName(p) == p[i + 1..]
  {
  }

  /** `Path(p).stem`: the name without its last suffix (a leading or trailing dot is no suffix). */
  function Stem(name: string): (r: string)
    ensures StartsWith(name, r)
  {
    var i := LastIndexOf(name, '.');
    if 0 < i < |name| - 1 then name[..i] else name
  }

  lemma StemAt(name: string, i: nat)
    requires 0 < i < |name| - 1 && name[i] == '.'
    requires forall j :: i < j < |name| ==> name[j] != '.'
    ensures Stem(name) == name[..i]
  {
  }

  lemma StemNoDot(name: string)
    requires '.' !in name
    ensures Stem(name) == name
  {
  }

  /**
   * `str(Path(p).parent / leaf)`: the leaf in the directory of `p`. Python
   * prints a leaf under the current directory `.` without any directory part.
   */
  function Sibling(p: string, leaf: string): (r: string)
    ensures EndsWith(r, leaf)
  {
    p[..LastIndexOf(p, '/') + 1] + leaf
  }

  lemma SiblingFlat(p: string, leaf: string)
    requires '/' !in p
    ensures Sibling(p, leaf) == leaf
  {
  }
}
