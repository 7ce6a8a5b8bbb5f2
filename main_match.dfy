/**
 * Pairing subtitles with videos (`find_video_matches` in
 * gst_gui/gui/main_window.py). Files are POSIX paths; a file's key is its
 * lower-cased stem. A subtitle takes the video with the same key, else the
 * video whose key shares the largest fraction of common prefix with its
 * own, provided that fraction is above 70%; videos no subtitle took are
 * listed after the subtitles.
 *
 * The dictionary and the match list are defined for any key function
 * `key`; `find_video_matches` uses `StemKey`, and every property below
 * holds whatever the key.
 *
 * The source compares float ratios `common / longest`; here `a/b > c/d` is
 * `a * d > c * b` on integers, which agrees with the floats for names
 * shorter than millions of characters.
 */
module MainWindowMatch {
  import opened Common
  import opened Text
  import MainWindowTree

  /** `Path(p).stem.lower()`. */
  function StemKey(path: string): string {
    Lower(Stem(PathName(path)))
  }

  // ---------------------------------------------------------------------
  // The stem dictionary
  // ---------------------------------------------------------------------

  /** A Python dict from keys to paths: its keys in insertion order and its mapping. */
  datatype StemDict = StemDict(order: seq<string>, paths: map<string, string>)

  /** The keys listed are exactly the keys mapped, each once. */
  ghost predicate WellFormed(d: StemDict) {
    && (forall k :: k in d.paths <==> k in d.order)
    && (forall i, j :: 0 <= i < j < |d.order| ==> d.order[i] != d.order[j])
  }

  /**
   * `{v.stem.lower(): v for v in videos}`: a key seen again keeps its place
   * and takes the later video.
   */
  function VideoStems(videos: seq<string>, key: string -> string): StemDict {
    if videos == [] then StemDict([], map[])
    else
      var d := VideoStems(videos[..|videos| - 1], key);
      var last := videos[|videos| - 1];
      var key := key(last);
      StemDict(if key in d.paths then d.order else d.order + [key], d.paths[key := last])
  }

  /** The dictionary is well formed. */
  lemma {:induction false} VideoStemsWellFormed(videos: seq<string>, key: string -> string)
    ensures WellFormed(VideoStems(videos, key))
  {
    if videos != [] {
      VideoStemsWellFormed(videos[..|videos| - 1], key);
    }
  }

  /** The dictionary has a key exactly when some video has it. */
  lemma {:induction false} VideoStemsKeys(videos: seq<string>, k: string, key: string -> string)
    ensures k in VideoStems(videos, key).paths <==> exists j :: 0 <= j < |videos| && key(videos[j]) == k
  {
    if videos != [] {
      var init := videos[..|videos| - 1];
      VideoStemsKeys(init, k, key);
      assert forall j :: 0 <= j < |init| ==> videos[j] == init[j];
      if k != key(videos[|videos| - 1]) && exists j :: 0 <= j < |videos| && key(videos[j]) == k {
        var j :| 0 <= j < |videos| && key(videos[j]) == k;
        assert key(init[j]) == k;
      }
    }
  }

  /** A key maps to the last video that has it: a later video with the same key replaces an earlier one. */
  lemma {:induction false} VideoStemsLast(videos: seq<string>, j: nat, key: string -> string)
    requires j < |videos|
    requires forall l :: j < l < |videos| ==> key(videos[l]) != key(videos[j])
    ensures key(videos[j]) in VideoStems(videos, key).paths
    ensures VideoStems(videos, key).paths[key(videos[j])] == videos[j]
  {
    if j < |videos| - 1 {
      var init := videos[..|videos| - 1];
      assert forall l :: 0 <= l < |init| ==> videos[l] == init[l];
      VideoStemsLast(init, j, key);
    }
  }

  /** Every key maps to a video that has that key. */
  lemma {:induction false} VideoStemsValues(videos: seq<string>, k: string, key: string -> string)
    requires k in VideoStems(videos, key).paths
    ensures VideoStems(videos, key).paths[k] in videos
    ensures key(VideoStems(videos, key).paths[k]) == k
  {
    var init := videos[..|videos| - 1];
    if k != key(videos[|videos| - 1]) {
      VideoStemsValues(init, k, key);
      assert VideoStems(videos, key).paths[k] in init;
    }
  }

  // ---------------------------------------------------------------------
  // Similarity
  // ---------------------------------------------------------------------

  /** `len(os.path.commonprefix([a, b]))`. */
  function CommonPrefixLength(a: string, b: string): (r: nat)
    ensures r <= |a| && r <= |b|
  {
    if a == [] || b == [] || a[0] != b[0] then 0
    else CommonPrefixLength(a[1..], b[1..]) + 1
  }

  /** The common prefix is shared, and the strings differ right after it unless one ends there. */
  lemma {:induction false} CommonPrefixLengthSpec(a: string, b: string)
    ensures var r := CommonPrefixLength(a, b);
      && a[..r] == b[..r]
      && (r < |a| && r < |b| ==> a[r] != b[r])
  {
    if a != [] && b != [] && a[0] == b[0] {
      CommonPrefixLengthSpec(a[1..], b[1..]);
      var n := CommonPrefixLength(a[1..], b[1..]);
      assert a[..n + 1] == [a[0]] + a[1..][..n];
      assert b[..n + 1] == [b[0]] + b[1..][..n];
    }
  }

  function Max(a: nat, b: nat): nat {
    if a >= b then a else b
  }

  /** The similarity `common / longest` of a subtitle key and a video key, as a numerator and a denominator. */
  datatype Score = Score(common: nat, longest: nat)

  function ScoreOf(subStem: string, videoStem: string): (r: Score)
    ensures r.common <= r.longest
  {
    Score(CommonPrefixLength(subStem, videoStem), Max(|subStem|, |videoStem|))
  }

  /** `similarity > 0.7`. */
  predicate AboveThreshold(s: Score) {
    s.common * 10 > 7 * s.longest
  }

  /** `a > b` for the ratios `a.common / a.longest` and `b.common / b.longest`. */
  predicate Beats(a: Score, b: Score) {
    a.common * b.longest > b.common * a.longest
  }

  lemma MulStrict(x: int, y: int, z: int)
    requires x > y && z > 0
    ensures x * z > y * z
  {
  }

  lemma MulWeak(x: int, y: int, z: int)
    requires x >= y && z > 0
    ensures x * z >= y * z
  {
  }

  /** Ratios with positive denominators: `a > b` and not `c > b` give `a > c`. */
  lemma BeatsTrans(a: Score, b: Score, c: Score)
    requires a.longest > 0 && b.longest > 0 && c.longest > 0
    requires Beats(a, b) && !Beats(c, b)
    ensures Beats(a, c)
  {
    // a.common * b.longest > b.common * a.longest and b.common * c.longest >= c.common * b.longest
    MulStrict(a.common * b.longest, b.common * a.longest, c.longest);
    MulWeak(b.common * c.longest, c.common * b.longest, a.longest);
    assert a.common * c.longest * b.longest > c.common * a.longest * b.longest;
    if a.common * c.longest <= c.common * a.longest {
      MulWeak(c.common * a.longest, a.common * c.longest, b.longest);
    }
  }

  /** A ratio above the threshold beats the zero a scan starts from. */
  lemma AboveBeatsZero(a: Score)
    requires AboveThreshold(a)
    ensures Beats(a, Score(0, 1))
  {
  }

  // ---------------------------------------------------------------------
  // The partial match
  // ---------------------------------------------------------------------

  /** The score of the `i`-th key against the subtitle key. */
  function ItemScore(subStem: string, keys: seq<string>, i: nat): Score
    requires i < |keys|
  {
    ScoreOf(subStem, keys[i])
  }

  /**
   * The scan of `find_video_matches` from the `i`-th key on, with the best
   * score so far and where it was found: a key replaces the best when its
   * ratio is above 0.7 and strictly above the best's.
   */
  function BestFrom(subStem: string, keys: seq<string>, i: nat, best: Score, bestAt: Option<nat>): (r: Option<nat>)
    requires i <= |keys|
    requires bestAt.Some? ==> bestAt.value < |keys|
    ensures r.Some? ==> r.value < |keys|
    decreases |keys| - i
  {
    if i == |keys| then bestAt
    else
      var s := ItemScore(subStem, keys, i);
      if Beats(s, best) && AboveThreshold(s) then BestFrom(subStem, keys, i + 1, s, Some(i))
      else BestFrom(subStem, keys, i + 1, best, bestAt)
  }

  /**
   * Key `b` is the first whose ratio is the largest among those above the
   * threshold.
   */
  predicate FirstBest(subStem: string, keys: seq<string>, b: nat)
    requires b < |keys|
  {
    && AboveThreshold(ItemScore(subStem, keys, b))
    && (forall j :: 0 <= j < |keys| && AboveThreshold(ItemScore(subStem, keys, j)) ==>
          !Beats(ItemScore(subStem, keys, j), ItemScore(subStem, keys, b)))
    && (forall j :: 0 <= j < b && AboveThreshold(ItemScore(subStem, keys, j)) ==>
          Beats(ItemScore(subStem, keys, b), ItemScore(subStem, keys, j)))
  }

  /** No key equals the subtitle key, so no ratio divides by zero. */
  predicate NotAKey(subStem: string, keys: seq<string>) {
    forall j :: 0 <= j < |keys| ==> keys[j] != subStem
  }

  lemma PositiveLongest(subStem: string, keys: seq<string>, j: nat)
    requires NotAKey(subStem, keys) && j < |keys|
    ensures ItemScore(subStem, keys, j).longest > 0
  {
    if |subStem| == 0 {
      assert keys[j] != [];
    }
  }

  /** What the scan knows after the keys before `i`. */
  predicate ScanState(subStem: string, keys: seq<string>, i: nat, best: Score, bestAt: Option<nat>)
    requires i <= |keys|
  {
    && best.longest > 0
    && (bestAt.None? ==>
          best == Score(0, 1) && forall j :: 0 <= j < i ==> !AboveThreshold(ItemScore(subStem, keys, j)))
    && (bestAt.Some? ==>
          && bestAt.value < i
          && best == ItemScore(subStem, keys, bestAt.value)
          && AboveThreshold(best)
          && (forall j :: 0 <= j < i && AboveThreshold(ItemScore(subStem, keys, j)) ==>
                !Beats(ItemScore(subStem, keys, j), best))
          && (forall j :: 0 <= j < bestAt.value && AboveThreshold(ItemScore(subStem, keys, j)) ==>
                Beats(best, ItemScore(subStem, keys, j))))
  }

  /** Key `i` beats the best and becomes it. */
  lemma ScanTake(subStem: string, keys: seq<string>, i: nat, best: Score, bestAt: Option<nat>)
    requires i < |keys| && NotAKey(subStem, keys)
    requires ScanState(subStem, keys, i, best, bestAt)
    requires Beats(ItemScore(subStem, keys, i), best) && AboveThreshold(ItemScore(subStem, keys, i))
    ensures ScanState(subStem, keys, i + 1, ItemScore(subStem, keys, i), Some(i))
  {
    var s := ItemScore(subStem, keys, i);
    PositiveLongest(subStem, keys, i);
    forall j | 0 <= j < i && AboveThreshold(ItemScore(subStem, keys, j))
      ensures Beats(s, ItemScore(subStem, keys, j))
    {
      PositiveLongest(subStem, keys, j);
      BeatsTrans(s, best, ItemScore(subStem, keys, j));
    }
  }

  /** Key `i` leaves the best as it is. */
  lemma ScanKeep(subStem: string, keys: seq<string>, i: nat, best: Score, bestAt: Option<nat>)
    requires i < |keys| && NotAKey(subStem, keys)
    requires ScanState(subStem, keys, i, best, bestAt)
    requires !(Beats(ItemScore(subStem, keys, i), best) && AboveThreshold(ItemScore(subStem, keys, i)))
    ensures ScanState(subStem, keys, i + 1, best, bestAt)
  {
    var s := ItemScore(subStem, keys, i);
    if bestAt.None? && AboveThreshold(s) {
      AboveBeatsZero(s);
    }
  }

  lemma {:induction false} BestFromSpec(subStem: string, keys: seq<string>, i: nat, best: Score, bestAt: Option<nat>)
    requires i <= |keys| && NotAKey(subStem, keys)
    requires ScanState(subStem, keys, i, best, bestAt)
    ensures var r := BestFrom(subStem, keys, i, best, bestAt);
      && (r.None? <==> bestAt.None? && forall j :: i <= j < |keys| ==> !AboveThreshold(ItemScore(subStem, keys, j)))
      && (r.Some? ==> FirstBest(subStem, keys, r.value))
    decreases |keys| - i, 1
  {
    if i < |keys| {
      var s := ItemScore(subStem, keys, i);
      if Beats(s, best) && AboveThreshold(s) {
        BestFromTake(subStem, keys, i, best, bestAt);
      } else {
        BestFromKeep(subStem, keys, i, best, bestAt);
      }
    }
  }

  /** The step of BestFromSpec at a key that becomes the new best. */
  lemma {:induction false} BestFromTake(subStem: string, keys: seq<string>, i: nat, best: Score, bestAt: Option<nat>)
    requires i < |keys| && NotAKey(subStem, keys)
    requires ScanState(subStem, keys, i, best, bestAt)
    requires Beats(ItemScore(subStem, keys, i), best) && AboveThreshold(ItemScore(subStem, keys, i))
    ensures var r := BestFrom(subStem, keys, i, best, bestAt);
      && (r.None? <==> bestAt.None? && forall j :: i <= j < |keys| ==> !AboveThreshold(ItemScore(subStem, keys, j)))
      && (r.Some? ==> FirstBest(subStem, keys, r.value))
    decreases |keys| - i, 0
  {
    var s := ItemScore(subStem, keys, i);
    ScanTake(subStem, keys, i, best, bestAt);
    BestFromSpec(subStem, keys, i + 1, s, Some(i));
  }

  /** The step of BestFromSpec at a key that does not change the best. */
  lemma {:induction false} BestFromKeep(subStem: string, keys: seq<string>, i: nat, best: Score, bestAt: Option<nat>)
    requires i < |keys| && NotAKey(subStem, keys)
    requires ScanState(subStem, keys, i, best, bestAt)
    requires !(Beats(ItemScore(subStem, keys, i), best) && AboveThreshold(ItemScore(subStem, keys, i)))
    ensures var r := BestFrom(subStem, keys, i, best, bestAt);
      && (r.None? <==> bestAt.None? && forall j :: i <= j < |keys| ==> !AboveThreshold(ItemScore(subStem, keys, j)))
      && (r.Some? ==> FirstBest(subStem, keys, r.value))
    decreases |keys| - i, 0
  {
    ScanKeep(subStem, keys, i, best, bestAt);
    BestFromSpec(subStem, keys, i + 1, best, bestAt);
  }

  /** The key the partial match picks, if any. */
  function BestKey(subStem: string, keys: seq<string>): (r: Option<nat>)
    ensures r.Some? ==> r.value < |keys|
  {
    BestFrom(subStem, keys, 0, Score(0, 1), None)
  }

  /**
   * For a subtitle key that is not a key, the scan finds nothing exactly when
   * no key is more than 70% similar, and otherwise the first key with the
   * greatest similarity.
   */
  lemma BestKeySpec(subStem: string, keys: seq<string>)
    requires NotAKey(subStem, keys)
    ensures var r := BestKey(subStem, keys);
      && (r.None? <==> forall j :: 0 <= j < |keys| ==> !AboveThreshold(ItemScore(subStem, keys, j)))
      && (r.Some? ==> FirstBest(subStem, keys, r.value))
  {
    BestFromSpec(subStem, keys, 0, Score(0, 1), None);
  }

  /** The video a subtitle key is paired with: the same key's video, else the best partial match. */
  function MatchFor(subStem: string, d: StemDict): Option<string> {
    if subStem in d.paths then Some(d.paths[subStem])
    else
      var b := BestKey(subStem, d.order);
      // every listed key is mapped in a well-formed dictionary
      if b.Some? && d.order[b.value] in d.paths then Some(d.paths[d.order[b.value]]) else None
  }

  /** Where a video's key sits in the dictionary's order. */
  lemma KeyIndex(videos: seq<string>, j: nat, key: string -> string) returns (i: nat)
    requires j < |videos|
    ensures i < |VideoStems(videos, key).order| && VideoStems(videos, key).order[i] == key(videos[j])
  {
    VideoStemsWellFormed(videos, key);
    VideoStemsKeys(videos, key(videos[j]), key);
    var order := VideoStems(videos, key).order;
    assert key(videos[j]) in order;
    i :| 0 <= i < |order| && order[i] == key(videos[j]);
  }

  /** A subtitle key no video has is not among the dictionary's keys. */
  lemma NotAKeyOfVideos(subStem: string, videos: seq<string>, key: string -> string)
    requires forall j :: 0 <= j < |videos| ==> key(videos[j]) != subStem
    ensures subStem !in VideoStems(videos, key).paths
    ensures NotAKey(subStem, VideoStems(videos, key).order)
  {
    VideoStemsWellFormed(videos, key);
    VideoStemsKeys(videos, subStem, key);
  }

  /** For a subtitle key no video has, no video is found exactly when none is more than 70% similar. */
  lemma MatchForNone(subStem: string, videos: seq<string>, key: string -> string)
    requires forall j :: 0 <= j < |videos| ==> key(videos[j]) != subStem
    ensures MatchFor(subStem, VideoStems(videos, key)).None? <==>
              forall j :: 0 <= j < |videos| ==> !AboveThreshold(ScoreOf(subStem, key(videos[j])))
  {
    var d := VideoStems(videos, key);
    NotAKeyOfVideos(subStem, videos, key);
    VideoStemsWellFormed(videos, key);
    BestKeySpec(subStem, d.order);
    var b := BestKey(subStem, d.order);
    if b.None? {
      forall j | 0 <= j < |videos| ensures !AboveThreshold(ScoreOf(subStem, key(videos[j]))) {
        var i := KeyIndex(videos, j, key);
        assert !AboveThreshold(ItemScore(subStem, d.order, i));
      }
    } else {
      assert d.order[b.value] in d.paths;
      assert AboveThreshold(ItemScore(subStem, d.order, b.value));
      VideoStemsKeys(videos, d.order[b.value], key);
    }
  }

  /** A video found for a subtitle key no video has is more than 70% similar, and no video is more similar. */
  lemma MatchForSome(subStem: string, videos: seq<string>, key: string -> string)
    requires forall j :: 0 <= j < |videos| ==> key(videos[j]) != subStem
    requires MatchFor(subStem, VideoStems(videos, key)).Some?
    ensures var v := MatchFor(subStem, VideoStems(videos, key)).value;
      && v in videos
      && AboveThreshold(ScoreOf(subStem, key(v)))
      && forall j :: 0 <= j < |videos| && AboveThreshold(ScoreOf(subStem, key(videos[j]))) ==>
           !Beats(ScoreOf(subStem, key(videos[j])), ScoreOf(subStem, key(v)))
  {
    var d := VideoStems(videos, key);
    NotAKeyOfVideos(subStem, videos, key);
    BestKeySpec(subStem, d.order);
    var b := BestKey(subStem, d.order).value;
    VideoStemsValues(videos, d.order[b], key);
    forall j | 0 <= j < |videos| && AboveThreshold(ScoreOf(subStem, key(videos[j])))
      ensures !Beats(ScoreOf(subStem, key(videos[j])), ItemScore(subStem, d.order, b))
    {
      var i := KeyIndex(videos, j, key);
      assert AboveThreshold(ItemScore(subStem, d.order, i));
    }
  }

  /** The same key's video wins, and it is the last video with that key. */
  lemma ExactMatchWins(subStem: string, videos: seq<string>, j: nat, key: string -> string)
    requires j < |videos| && key(videos[j]) == subStem
    requires forall l :: j < l < |videos| ==> key(videos[l]) != subStem
    ensures MatchFor(subStem, VideoStems(videos, key)) == Some(videos[j])
  {
    VideoStemsWellFormed(videos, key);
    VideoStemsLast(videos, j, key);
  }

  // ---------------------------------------------------------------------
  // The match list
  // ---------------------------------------------------------------------

  const MatchedStatus: string := "\U{2705} Matched"
  const NoMatchStatus: string := "\U{26A0}\U{FE0F} No match"
  const NoSubtitlesStatus: string := "\U{2139}\U{FE0F} No subtitles"

  /** One entry of the list `find_video_matches` returns. */
  datatype MatchEntry = MatchEntry(subtitle: Option<string>, video: Option<string>, status: string, tag: string)

  /** The entry for one subtitle: matched when a video was found, else no match. */
  function SubtitleEntry(subtitle: string, d: StemDict, key: string -> string): MatchEntry
  {
    var m := MatchFor(key(subtitle), d);
    MatchEntry(Some(subtitle), m, if m.Some? then MatchedStatus else NoMatchStatus, if m.Some? then "matched" else "no_match")
  }

  /** The entries for the subtitles, one each, in input order. */
  function SubtitleEntries(subtitles: seq<string>, d: StemDict, key: string -> string): (r: seq<MatchEntry>)
    ensures |r| == |subtitles|
    ensures forall k :: 0 <= k < |r| ==> r[k] == SubtitleEntry(subtitles[k], d, key)
  {
    if subtitles == [] then []
    else SubtitleEntries(subtitles[..|subtitles| - 1], d, key) + [SubtitleEntry(subtitles[|subtitles| - 1], d, key)]
  }

  /** The videos some entry was paired with. */
  function MatchedVideos(entries: seq<MatchEntry>): set<string> {
    set k | 0 <= k < |entries| && entries[k].video.Some? :: entries[k].video.value
  }

  /** An entry without subtitle for each video not among `matched`, in input order. */
  function VideoOnlyEntries(videos: seq<string>, matched: set<string>): seq<MatchEntry> {
    if videos == [] then []
    else
      var last := videos[|videos| - 1];
      VideoOnlyEntries(videos[..|videos| - 1], matched)
        + (if last in matched then [] else [MatchEntry(None, Some(last), NoSubtitlesStatus, "video_only")])
  }

  /** `find_video_matches`: the subtitle entries in order, then the videos left over. */
  function VideoMatches(subtitles: seq<string>, videos: seq<string>, key: string -> string): (r: seq<MatchEntry>)
    ensures |subtitles| <= |r| <= |subtitles| + |videos|
  {
    var entries := SubtitleEntries(subtitles, VideoStems(videos, key), key);
    VideoOnlyEntriesShape(videos, MatchedVideos(entries));
    entries + VideoOnlyEntries(videos, MatchedVideos(entries))
  }

  /** The entries without subtitle list each video not among `matched` and nothing else. */
  lemma {:induction false} VideoOnlyEntriesShape(videos: seq<string>, matched: set<string>)
    ensures var r := VideoOnlyEntries(videos, matched);
      && |r| <= |videos|
      && (forall k :: 0 <= k < |r| ==>
            && r[k].subtitle.None? && r[k].video.Some?
            && r[k].video.value in videos && r[k].video.value !in matched
            && r[k].status == NoSubtitlesStatus && r[k].tag == "video_only")
      && (forall j :: 0 <= j < |videos| && videos[j] !in matched ==>
            exists k :: 0 <= k < |r| && r[k].video == Some(videos[j]))
  {
    if videos != [] {
      var init := videos[..|videos| - 1];
      VideoOnlyEntriesShape(init, matched);
      var r0 := VideoOnlyEntries(init, matched);
      var r := VideoOnlyEntries(videos, matched);
      assert forall k :: 0 <= k < |r0| ==> r[k] == r0[k];
      assert forall j :: 0 <= j < |init| ==> videos[j] == init[j];
      forall j | 0 <= j < |videos| && videos[j] !in matched
        ensures exists k :: 0 <= k < |r| && r[k].video == Some(videos[j])
      {
        if j < |init| {
          var k :| 0 <= k < |r0| && r0[k].video == Some(init[j]);
          assert r[k].video == Some(videos[j]);
        } else {
          assert r[|r0|].video == Some(videos[j]);
        }
      }
    }
  }

  /** A video found for a subtitle is one of the videos. */
  lemma MatchForIsAVideo(subStem: string, videos: seq<string>, key: string -> string)
    requires MatchFor(subStem, VideoStems(videos, key)).Some?
    ensures MatchFor(subStem, VideoStems(videos, key)).value in videos
  {
    var d := VideoStems(videos, key);
    if subStem in d.paths {
      VideoStemsValues(videos, subStem, key);
    } else {
      VideoStemsValues(videos, d.order[BestKey(subStem, d.order).value], key);
    }
  }

  /** Whether an entry's status and tag agree with what it pairs. */
  predicate Labelled(e: MatchEntry) {
    && (e.subtitle.Some? && e.video.Some? ==> e.status == MatchedStatus && e.tag == "matched")
    && (e.subtitle.Some? && e.video.None? ==> e.status == NoMatchStatus && e.tag == "no_match")
    && (e.subtitle.None? ==> e.video.Some? && e.status == NoSubtitlesStatus && e.tag == "video_only")
  }

  /** The entry for a subtitle names it, is labelled, and names only one of the videos. */
  lemma SubtitleEntryShape(subtitle: string, videos: seq<string>, key: string -> string)
    ensures var e := SubtitleEntry(subtitle, VideoStems(videos, key), key);
      && e.subtitle == Some(subtitle) && Labelled(e)
      && (e.video.Some? ==> e.video.value in videos)
  {
    if SubtitleEntry(subtitle, VideoStems(videos, key), key).video.Some? {
      MatchForIsAVideo(key(subtitle), videos, key);
    }
  }

  /** The subtitle entries: one per subtitle, labelled, naming only videos. */
  lemma SubtitleEntriesShape(subtitles: seq<string>, videos: seq<string>, key: string -> string)
    ensures var entries := SubtitleEntries(subtitles, VideoStems(videos, key), key);
      && (forall k :: 0 <= k < |entries| ==> entries[k].subtitle == Some(subtitles[k]) && Labelled(entries[k]))
      && (forall k :: 0 <= k < |entries| && entries[k].video.Some? ==> entries[k].video.value in videos)
  {
    forall k | 0 <= k < |subtitles| {
      SubtitleEntryShape(subtitles[k], videos, key);
    }
  }

  /** The shape of the entries without subtitle appended to any labelled subtitle entries. */
  lemma AppendedShape(entries: seq<MatchEntry>, subtitles: seq<string>, videos: seq<string>)
    requires |entries| == |subtitles|
    requires forall k :: 0 <= k < |entries| ==> entries[k].subtitle == Some(subtitles[k]) && Labelled(entries[k])
    requires forall k :: 0 <= k < |entries| && entries[k].video.Some? ==> entries[k].video.value in videos
    ensures var r := entries + VideoOnlyEntries(videos, MatchedVideos(entries));
      && |subtitles| <= |r| <= |subtitles| + |videos|
      && (forall k :: 0 <= k < |subtitles| ==> r[k].subtitle == Some(subtitles[k]))
      && (forall k :: |subtitles| <= k < |r| ==> r[k].subtitle.None?)
      && (forall k :: 0 <= k < |r| ==> Labelled(r[k]))
      && (forall k :: 0 <= k < |r| && r[k].video.Some? ==> r[k].video.value in videos)
  {
    var rest := VideoOnlyEntries(videos, MatchedVideos(entries));
    var r := entries + rest;
    VideoOnlyEntriesShape(videos, MatchedVideos(entries));
    forall k | 0 <= k < |r|
      ensures k < |entries| ==> r[k] == entries[k]
      ensures k >= |entries| ==> r[k] == rest[k - |entries|]
    {
    }
  }

  /**
   * One entry per subtitle, in input order, then only entries without
   * subtitle; every entry is labelled by what it pairs, and every video
   * named is one of the videos.
   */
  lemma VideoMatchesShape(subtitles: seq<string>, videos: seq<string>, key: string -> string)
    ensures var r := VideoMatches(subtitles, videos, key);
      && |subtitles| <= |r| <= |subtitles| + |videos|
      && (forall k :: 0 <= k < |subtitles| ==> r[k].subtitle == Some(subtitles[k]))
      && (forall k :: |subtitles| <= k < |r| ==> r[k].subtitle.None?)
      && (forall k :: 0 <= k < |r| ==> Labelled(r[k]))
      && (forall k :: 0 <= k < |r| && r[k].video.Some? ==> r[k].video.value in videos)
  {
    var entries := SubtitleEntries(subtitles, VideoStems(videos, key), key);
    SubtitleEntriesShape(subtitles, videos, key);
    AppendedShape(entries, subtitles, videos);
  }

  /** Every video appears in some entry, paired or on its own. */
  lemma EveryVideoListed(subtitles: seq<string>, videos: seq<string>, j: nat, key: string -> string)
    requires j < |videos|
    ensures exists k :: 0 <= k < |VideoMatches(subtitles, videos, key)| && VideoMatches(subtitles, videos, key)[k].video == Some(videos[j])
  {
    var entries := SubtitleEntries(subtitles, VideoStems(videos, key), key);
    var matched := MatchedVideos(entries);
    var r := VideoMatches(subtitles, videos, key);
    if videos[j] in matched {
      var k :| 0 <= k < |entries| && entries[k].video.Some? && entries[k].video.value == videos[j];
      assert r[k] == entries[k];
    } else {
      VideoOnlyEntriesShape(videos, matched);
      var rest := VideoOnlyEntries(videos, matched);
      var k :| 0 <= k < |rest| && rest[k].video == Some(videos[j]);
      assert r[|entries| + k] == rest[k];
    }
  }

  /** Whatever the entries before them, a video is listed after them exactly when none of them names it. */
  lemma VideoOnlyAfter(entries: seq<MatchEntry>, videos: seq<string>, j: nat)
    requires j < |videos|
    ensures var r := entries + VideoOnlyEntries(videos, MatchedVideos(entries));
      (exists k :: |entries| <= k < |r| && r[k].video == Some(videos[j])) <==>
        forall k :: 0 <= k < |entries| ==> r[k].video != Some(videos[j])
  {
    var matched := MatchedVideos(entries);
    var rest := VideoOnlyEntries(videos, matched);
    var r := entries + rest;
    VideoOnlyEntriesShape(videos, matched);
    if videos[j] !in matched {
      var k :| 0 <= k < |rest| && rest[k].video == Some(videos[j]);
      assert r[|entries| + k] == rest[k];
      forall i | 0 <= i < |entries| ensures r[i].video != Some(videos[j]) {
        assert r[i] == entries[i];
        assert entries[i].video.Some? ==> entries[i].video.value in matched;
      }
    } else {
      var k :| 0 <= k < |entries| && entries[k].video.Some? && entries[k].video.value == videos[j];
      assert r[k] == entries[k];
      forall i | |entries| <= i < |r| ensures r[i].video != Some(videos[j]) {
        assert r[i] == rest[i - |entries|];
      }
    }
  }

  /** A video gets an entry of its own exactly when no subtitle was paired with it. */
  lemma VideoOnlyWhenUnmatched(subtitles: seq<string>, videos: seq<string>, j: nat, key: string -> string)
    requires j < |videos|
    ensures var r := VideoMatches(subtitles, videos, key);
      (exists k :: |subtitles| <= k < |r| && r[k].video == Some(videos[j])) <==>
        forall k :: 0 <= k < |subtitles| ==> r[k].video != Some(videos[j])
  {
    var entries := SubtitleEntries(subtitles, VideoStems(videos, key), key);
    assert |entries| == |subtitles|;
    VideoOnlyAfter(entries, videos, j);
  }

  /** The tag of every entry is the one the tree derives from its status. */
  lemma TagsFollowStatus(subtitles: seq<string>, videos: seq<string>, key: string -> string)
    ensures var r := VideoMatches(subtitles, videos, key);
      forall k :: 0 <= k < |r| ==> MainWindowTree.DetermineTagFromStatus(r[k].status) == r[k].tag
  {
    VideoMatchesShape(subtitles, videos, key);
    MainWindowTree.MatchStatusesGiveTheirTags(MatchedStatus, NoMatchStatus, NoSubtitlesStatus);
  }

  /**
   * `find_video_matches`: the dictionary of video keys, an entry for each
   * subtitle, then an entry for each video no subtitle was paired with.
   */
  method FindVideoMatches(subtitles: seq<string>, videos: seq<string>) returns (matches: seq<MatchEntry>)
    ensures matches == VideoMatches(subtitles, videos, StemKey)
  {
    var videoStems := BuildVideoStems(videos, StemKey);
    matches := MatchSubtitles(subtitles, videoStems, StemKey);
    matches := AppendVideoOnly(matches, videos, MatchedVideos(matches));
  }

  /** The loop appending an entry for each video not in `matchedVideos`. */
  method AppendVideoOnly(entries: seq<MatchEntry>, videos: seq<string>, matchedVideos: set<string>)
    returns (matches: seq<MatchEntry>)
    ensures matches == entries + VideoOnlyEntries(videos, matchedVideos)
  {
    matches := entries;
    for j := 0 to |videos|
      invariant matches == entries + VideoOnlyEntries(videos[..j], matchedVideos)
    {
      assert videos[..j + 1][..j] == videos[..j];
      if videos[j] !in matchedVideos {
        matches := matches + [MatchEntry(None, Some(videos[j]), NoSubtitlesStatus, "video_only")];
      }
    }
    assert videos[..|videos|] == videos;
  }

  /** `{v.stem.lower(): v for v in video_files}`, one video at a time. */
  method BuildVideoStems(videos: seq<string>, key: string -> string) returns (videoStems: StemDict)
    ensures videoStems == VideoStems(videos, key)
    ensures WellFormed(videoStems)
  {
    videoStems := StemDict([], map[]);
    for j := 0 to |videos|
      invariant videoStems == VideoStems(videos[..j], key)
    {
      assert videos[..j + 1][..j] == videos[..j];
      var key := key(videos[j]);
      if key in videoStems.paths {
        videoStems := videoStems.(paths := videoStems.paths[key := videos[j]]);
      } else {
        videoStems := StemDict(videoStems.order + [key], videoStems.paths[key := videos[j]]);
      }
    }
    assert videos[..|videos|] == videos;
    VideoStemsWellFormed(videos, key);
  }

  /** The loop over the subtitles, one entry each. */
  method MatchSubtitles(subtitles: seq<string>, videoStems: StemDict, key: string -> string) returns (matches: seq<MatchEntry>)
    requires WellFormed(videoStems)
    ensures matches == SubtitleEntries(subtitles, videoStems, key)
  {
    matches := [];
    for i := 0 to |subtitles|
      invariant |matches| == i
      invariant forall k :: 0 <= k < i ==> matches[k] == SubtitleEntry(subtitles[k], videoStems, key)
    {
      var entry := MatchSubtitle(subtitles[i], videoStems, key);
      matches := matches + [entry];
    }
  }

  /** The body of the loop over the subtitles: the same key's video, else the best partial match. */
  method MatchSubtitle(subtitle: string, videoStems: StemDict, key: string -> string) returns (entry: MatchEntry)
    requires WellFormed(videoStems)
    ensures entry == SubtitleEntry(subtitle, videoStems, key)
  {
    var subtitleStem := key(subtitle);
    var matchedVideo: Option<string>;
    if subtitleStem in videoStems.paths {
      matchedVideo := Some(videoStems.paths[subtitleStem]);
    } else {
      matchedVideo := PartialMatch(subtitleStem, videoStems);
    }
    var status := if matchedVideo.Some? then MatchedStatus else NoMatchStatus;
    var tag := if matchedVideo.Some? then "matched" else "no_match";
    entry := MatchEntry(Some(subtitle), matchedVideo, status, tag);
  }

  /** The loop over the dictionary's items that keeps the best partial match above 70%. */
  method PartialMatch(subtitleStem: string, videoStems: StemDict) returns (bestMatch: Option<string>)
    requires WellFormed(videoStems) && subtitleStem !in videoStems.paths
    ensures bestMatch == MatchFor(subtitleStem, videoStems)
  {
    bestMatch := None;
    var bestScore := Score(0, 1);
    ghost var bestAt: Option<nat> := None;
    var keys := videoStems.order;
    for i := 0 to |keys|
      invariant bestAt.Some? ==> bestAt.value < i
      invariant bestAt.None? ==> bestMatch.None?
      invariant bestAt.Some? ==> bestMatch == Some(videoStems.paths[keys[bestAt.value]])
      invariant BestFrom(subtitleStem, keys, i, bestScore, bestAt) == BestKey(subtitleStem, keys)
    {
      var score := ScoreOf(subtitleStem, keys[i]);
      if Beats(score, bestScore) && AboveThreshold(score) {
        bestScore := score;
        bestMatch := Some(videoStems.paths[keys[i]]);
        bestAt := Some(i);
      }
    }
  }
}
