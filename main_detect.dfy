/**
 * The main window's guesses about what was dropped (gst_gui/gui/main_window.py):
 * whether a file name looks like a TV episode, whether any of a set of files
 * does, and whether a TMDB lookup should start on its own.
 *
 * Regular-expression search is modelled per pattern as "the pattern matches
 * at some position" on the lower-cased name, with ASCII `\d` and `\s`.
 */
module MainWindowDetect {
  import opened Text

  /** `s\d{1,2}e\d{1,2}` matches at `i` (one or two digits on each side). */
  predicate EpisodeCodeAt(s: string, i: nat) {
    && i + 3 < |s| && s[i] == 's' && IsDigit(s[i + 1])
    && ((s[i + 2] == 'e' && IsDigit(s[i + 3]))
        || (i + 4 < |s| && IsDigit(s[i + 2]) && s[i + 3] == 'e' && IsDigit(s[i + 4])))
  }

  /** The end of the run of whitespace starting at `i`. */
  function SpaceEnd(s: string, i: nat): (r: nat)
    requires i <= |s|
    ensures i <= r <= |s|
    ensures forall k :: i <= k < r ==> s[k] in Whitespace
    ensures r < |s| ==> s[r] !in Whitespace
    decreases |s| - i
  {
    if i < |s| && s[i] in Whitespace then SpaceEnd(s, i + 1) else i
  }

  /** `<word>\s*\d+` matches at `i`: the word, any whitespace, then a digit. */
  predicate NumberedAt(s: string, word: string, i: nat) {
    && i + |word| <= |s| && s[i..i + |word|] == word
    && var j := SpaceEnd(s, i + |word|);
       j < |s| && IsDigit(s[j])
  }

  /** `\d{1,2}x\d{1,2}` matches at `i`. */
  predicate CrossAt(s: string, i: nat) {
    && i + 2 < |s| && IsDigit(s[i])
    && ((s[i + 1] == 'x' && IsDigit(s[i + 2]))
        || (i + 3 < |s| && IsDigit(s[i + 1]) && s[i + 2] == 'x' && IsDigit(s[i + 3])))
  }

  /** One of the four episode patterns matches at `i`. */
  predicate PatternAt(s: string, i: nat) {
    EpisodeCodeAt(s, i) || NumberedAt(s, "season", i) || NumberedAt(s, "episode", i) || CrossAt(s, i)
  }

  /**
   * `_detect_tv_series_pattern`: an empty name is no episode; otherwise any
   * pattern anywhere in the lower-cased name. The shortest pattern (`1x2`)
   * has three characters, so no shorter name is taken for an episode.
   */
  predicate DetectTvSeriesPattern(filename: string)
    ensures DetectTvSeriesPattern(filename) ==> |filename| >= 3
  {
    filename != [] && var low := Lower(filename);
    exists i :: 0 <= i < |low| && PatternAt(low, i)
  }

  /** Every pattern needs a digit at or after where it matches. */
  lemma PatternHasDigit(s: string, i: nat)
    requires PatternAt(s, i)
    ensures exists k :: i <= k < |s| && IsDigit(s[k])
  {
    if EpisodeCodeAt(s, i) || CrossAt(s, i) {
      assert IsDigit(s[i + 1]) || IsDigit(s[i]);
    } else if NumberedAt(s, "season", i) {
      assert IsDigit(s[SpaceEnd(s, i + 6)]);
    } else {
      assert IsDigit(s[SpaceEnd(s, i + 7)]);
    }
  }

  /** A name without a digit is never taken for an episode. */
  lemma NoDigitNoSeries(filename: string)
    requires forall k :: 0 <= k < |filename| ==> !IsDigit(filename[k])
    ensures !DetectTvSeriesPattern(filename)
  {
    var low := Lower(filename);
    forall i: nat | i < |low| ensures !PatternAt(low, i) {
      if PatternAt(low, i) {
        PatternHasDigit(low, i);
      }
    }
  }

  /** Detection does not depend on letter case. */
  lemma DetectIgnoresCase(filename: string)
    ensures DetectTvSeriesPattern(Lower(filename)) == DetectTvSeriesPattern(filename)
  {
    LowerIdempotent(filename);
  }

  /** A whitespace run inside `s` ends at the same place when `s` sits inside a longer name. */
  lemma {:induction false} SpaceEndShift(p: string, s: string, q: string, i: nat)
    requires i <= |s| && SpaceEnd(s, i) < |s|
    ensures SpaceEnd(p + s + q, |p| + i) == |p| + SpaceEnd(s, i)
    decreases |s| - i
  {
    var t := p + s + q;
    assert t[|p| + i] == s[i];
    if s[i] in Whitespace {
      SpaceEndShift(p, s, q, i + 1);
    }
  }

  /** A word followed by a number in `s` is still there, shifted, in `p + s + q`. */
  lemma NumberedShift(p: string, s: string, q: string, word: string, i: nat)
    requires i < |s| && NumberedAt(s, word, i)
    ensures NumberedAt(p + s + q, word, |p| + i)
  {
    var t := p + s + q;
    SpaceEndShift(p, s, q, i + |word|);
    assert t[|p| + i..|p| + i + |word|] == s[i..i + |word|];
    var j := SpaceEnd(s, i + |word|);
    assert t[|p| + j] == s[j];
  }

  /** A pattern found in `s` is still found, shifted, in `p + s + q`. */
  lemma PatternShift(p: string, s: string, q: string, i: nat)
    requires i < |s| && PatternAt(s, i)
    ensures PatternAt(p + s + q, |p| + i)
  {
    var t := p + s + q;
    if NumberedAt(s, "season", i) {
      NumberedShift(p, s, q, "season", i);
    } else if NumberedAt(s, "episode", i) {
      NumberedShift(p, s, q, "episode", i);
    } else {
      assert forall k :: i <= k < |s| && k < i + 5 ==> t[|p| + k] == s[k];
    }
  }

  /** An episode pattern stays detected whatever surrounds the name. */
  lemma DetectInContext(p: string, s: string, q: string)
    requires DetectTvSeriesPattern(s)
    ensures DetectTvSeriesPattern(p + s + q)
  {
    var low := Lower(s);
    var i :| 0 <= i < |low| && PatternAt(low, i);
    LowerAppend(p, s);
    LowerAppend(p + s, q);
    PatternShift(Lower(p), low, Lower(q), i);
    assert PatternAt(Lower(p + s + q), |Lower(p)| + i);
  }

  /** "S01E01" is an episode name. */
  lemma EpisodeCodeDetected(s: string)
    requires s == "S01E01"
    ensures DetectTvSeriesPattern(s)
  {
    assert Lower(s)[..4] == "s01e";
    assert EpisodeCodeAt(Lower(s), 0);
    assert PatternAt(Lower(s), 0);
  }

  /** "season 2" is an episode name. */
  lemma SeasonDetected(s: string)
    requires s == "season 2"
    ensures DetectTvSeriesPattern(s)
  {
    var low := Lower(s);
    assert low == s;
    assert SpaceEnd(low, 7) == 7;
    assert SpaceEnd(low, 6) == 7;
    assert NumberedAt(low, "season", 0);
    assert PatternAt(low, 0);
  }

  /** "Episode 3" is an episode name: the word is matched after lower-casing. */
  lemma EpisodeWordDetected(s: string)
    requires s == "Episode 3"
    ensures DetectTvSeriesPattern(s)
  {
    var low := Lower(s);
    assert low == "episode 3";
    assert SpaceEnd(low, 8) == 8;
    assert SpaceEnd(low, 7) == 8;
    assert NumberedAt(low, "episode", 0);
    assert PatternAt(low, 0);
  }

  /** "1x02" is an episode name. */
  lemma CrossDetected(s: string)
    requires s == "1x02"
    ensures DetectTvSeriesPattern(s)
  {
    assert Lower(s) == s;
    assert CrossAt(Lower(s), 0);
    assert PatternAt(Lower(s), 0);
  }

  /** How a dropped item is named: a path by its last component, anything else by its text. */
  datatype FileItem = PathItem(path: string) | TextItem(text: string)

  function ItemName(item: FileItem): string {
    match item
    case PathItem(path) => PathName(path)
    case TextItem(text) => text
  }

  /**
   * `_auto_detect_and_set_tv_series`: the TV-series switch ends up on exactly
   * when some item's name looks like an episode. Every item is examined.
   */
  method AutoDetectAndSetTvSeries(files: seq<FileItem>) returns (detected: bool)
    ensures detected <==> exists k :: 0 <= k < |files| && DetectTvSeriesPattern(ItemName(files[k]))
  {
    detected := false;
    for j := 0 to |files|
      invariant detected == SomeEpisodeBefore(files, j)
    {
      var filename := ItemName(files[j]);
      SomeEpisodeStep(files, j);
      if DetectTvSeriesPattern(filename) {
        detected := true;
      }
    }
  }

  /** Some item among the first `n` has an episode-like name. */
  predicate SomeEpisodeBefore(files: seq<FileItem>, n: nat)
    requires n <= |files|
  {
    exists k :: 0 <= k < n && DetectTvSeriesPattern(ItemName(files[k]))
  }

  /** Looking at one more item adds exactly that item's answer. */
  lemma SomeEpisodeStep(files: seq<FileItem>, j: nat)
    requires j < |files|
    ensures SomeEpisodeBefore(files, j + 1) == (SomeEpisodeBefore(files, j) || DetectTvSeriesPattern(ItemName(files[j])))
  {
    if SomeEpisodeBefore(files, j + 1) && !DetectTvSeriesPattern(ItemName(files[j])) {
      var k :| 0 <= k < j + 1 && DetectTvSeriesPattern(ItemName(files[k]));
      assert k < j;
    }
  }

  /**
   * `_should_auto_fetch_tmdb`: fetch only when auto-fetch is on, a TMDB key is
   * given (something other than whitespace) and no TMDB id is set yet.
   */
  function ShouldAutoFetchTmdb(autoFetch: bool, tmdbApiKey: string, tmdbId: string): (r: bool)
    ensures r <==> && autoFetch
                   && (exists k :: 0 <= k < |tmdbApiKey| && tmdbApiKey[k] !in Whitespace)
                   && (forall k :: 0 <= k < |tmdbId| ==> tmdbId[k] in Whitespace)
  {
    StripBlank(tmdbApiKey);
    StripBlank(tmdbId);
    if !autoFetch then false
    else if Trim(tmdbApiKey) == [] then false
    else if Trim(tmdbId) != [] then false
    else true
  }
}
