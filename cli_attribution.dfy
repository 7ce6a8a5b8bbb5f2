/**
 * The attribution caption the command runner adds to a translated subtitle
 * file (`add_translator_info` in gst_gui/utils/cli_runner.py). Times are
 * whole milliseconds. The subtitle library's sort-and-renumber step is
 * modelled as a stable sort by start time followed by numbering from 1.
 */
module CliAttribution {

  /** One subtitle entry: its number, start and end in milliseconds, and its text. */
  datatype Caption = Caption(index: int, start: int, end: int, content: string)

  const OneSecond: int := 1000
  const FiveSeconds: int := 5000

  /** The caption text: "# Translated by <model> #". */
  function TranslatorInfo(model: string): string {
    "# Translated by " + model + " #"
  }

  /** The end of the attribution: the first caption's start, but no later than five seconds. */
  function InfoEnd(captions: seq<Caption>): int {
    var firstStart := if captions != [] then captions[0].start else FiveSeconds;
    if firstStart < FiveSeconds then firstStart else FiveSeconds
  }

  /** The start of the attribution: one second when it ends at five seconds, else zero. */
  function InfoStart(captions: seq<Caption>): int {
    if InfoEnd(captions) == FiveSeconds then OneSecond else 0
  }

  /**
   * The attribution caption. It never runs past the first caption nor past
   * five seconds; it spans one to five seconds exactly when nothing starts
   * before five seconds, and otherwise starts at zero.
   */
  function InfoCaption(captions: seq<Caption>, info: string): (r: Caption)
    ensures r.content == info
    ensures r.end <= FiveSeconds
    ensures captions != [] ==> r.end <= captions[0].start
    ensures captions == [] ==> r.start == OneSecond && r.end == FiveSeconds
    ensures r.start == OneSecond <==> r.end == FiveSeconds
    ensures r.start == 0 <==> r.end < FiveSeconds
    ensures captions != [] && captions[0].start >= 0 ==> 0 <= r.start <= r.end
  {
    Caption(1, InfoStart(captions), InfoEnd(captions), info)
  }

  // ---------------------------------------------------------------------
  // Sorting and renumbering
  // ---------------------------------------------------------------------

  predicate SortedByStart(cs: seq<Caption>) {
    forall i, j :: 0 <= i < j < |cs| ==> cs[i].start <= cs[j].start
  }

  /** Put `c` in front of the first caption that does not start earlier. */
  function InsertByStart(c: Caption, cs: seq<Caption>): (r: seq<Caption>)
    ensures |r| == |cs| + 1
    ensures multiset(r) == multiset(cs) + multiset{c}
  {
    if cs == [] || c.start <= cs[0].start then [c] + cs
    else
      assert cs == [cs[0]] + cs[1..];
      [cs[0]] + InsertByStart(c, cs[1..])
  }

  /** A stable sort by start time: captions that start together keep their order. */
  function SortByStart(cs: seq<Caption>): (r: seq<Caption>)
    ensures |r| == |cs|
    ensures multiset(r) == multiset(cs)
  {
    if cs == [] then []
    else
      assert cs == [cs[0]] + cs[1..];
      InsertByStart(cs[0], SortByStart(cs[1..]))
  }

  /** Number the captions `first`, `first + 1`, ... in list order. */
  function Reindex(cs: seq<Caption>, first: int): (r: seq<Caption>)
    ensures |r| == |cs|
    ensures forall k :: 0 <= k < |cs| ==> r[k] == cs[k].(index := first + k)
  {
    if cs == [] then [] else [cs[0].(index := first)] + Reindex(cs[1..], first + 1)
  }

  function SortAndReindex(cs: seq<Caption>): seq<Caption> {
    Reindex(SortByStart(cs), 1)
  }

  lemma {:induction false} InsertKeepsSorted(c: Caption, cs: seq<Caption>)
    requires SortedByStart(cs)
    ensures SortedByStart(InsertByStart(c, cs))
  {
    if cs != [] && c.start > cs[0].start {
      InsertKeepsSorted(c, cs[1..]);
      var rest := InsertByStart(c, cs[1..]);
      assert forall k :: 0 <= k < |rest| ==> cs[0].start <= rest[k].start by {
        forall k | 0 <= k < |rest| ensures cs[0].start <= rest[k].start {
          assert rest[k] in multiset(rest);
          assert rest[k] in multiset(cs[1..]) + multiset{c};
          if rest[k] != c {
            assert rest[k] in cs[1..];
          }
        }
      }
    }
  }

  lemma {:induction false} SortIsSorted(cs: seq<Caption>)
    ensures SortedByStart(SortByStart(cs))
  {
    if cs != [] {
      SortIsSorted(cs[1..]);
      InsertKeepsSorted(cs[0], SortByStart(cs[1..]));
    }
  }

  /** Sorting a list that is already in start order changes nothing. */
  lemma {:induction false} SortOfSorted(cs: seq<Caption>)
    requires SortedByStart(cs)
    ensures SortByStart(cs) == cs
  {
    if cs != [] {
      SortOfSorted(cs[1..]);
      assert SortByStart(cs[1..]) == cs[1..];
      assert [cs[0]] + cs[1..] == cs;
    }
  }

  // ---------------------------------------------------------------------
  // The caption list after attribution
  // ---------------------------------------------------------------------

  /** The list the runner writes back: the attribution inserted first, then sorted and renumbered. */
  function WithTranslatorInfo(captions: seq<Caption>, info: string): seq<Caption> {
    SortAndReindex([InfoCaption(captions, info)] + captions)
  }

  /**
   * Whatever the file held, the result is in start order, numbered 1, 2, ...,
   * and holds the attribution and every old caption (renumbered) exactly once.
   */
  lemma WithTranslatorInfoShape(captions: seq<Caption>, info: string)
    ensures var r := WithTranslatorInfo(captions, info);
      && |r| == |captions| + 1
      && SortedByStart(r)
      && (forall k :: 0 <= k < |r| ==> r[k].index == k + 1)
      && multiset(SortByStart([InfoCaption(captions, info)] + captions))
         == multiset(captions) + multiset{InfoCaption(captions, info)}
  {
    var all := [InfoCaption(captions, info)] + captions;
    SortIsSorted(all);
    var sorted := SortByStart(all);
    var r := Reindex(sorted, 1);
    assert forall k :: 0 <= k < |r| ==> r[k].start == sorted[k].start;
    assert multiset(all) == multiset{InfoCaption(captions, info)} + multiset(captions);
  }

  /**
   * For a file already in start order whose first caption does not start
   * before zero, the attribution becomes caption 1 and the old captions
   * follow in their order, numbered from 2.
   */
  lemma InfoComesFirst(captions: seq<Caption>, info: string)
    requires SortedByStart(captions)
    requires captions != [] ==> captions[0].start >= 0
    ensures WithTranslatorInfo(captions, info)
      == [InfoCaption(captions, info)] + Reindex(captions, 2)
  {
    var all := [InfoCaption(captions, info)] + captions;
    assert SortedByStart(all) by {
      forall i, j | 0 <= i < j < |all| ensures all[i].start <= all[j].start {
        if i == 0 {
          assert all[j] == captions[j - 1];
          assert captions[0].start <= captions[j - 1].start;
        } else {
          assert all[i] == captions[i - 1] && all[j] == captions[j - 1];
        }
      }
    }
    SortOfSorted(all);
    var r := Reindex(all, 1);
    assert r[1..] == Reindex(captions, 2);
    assert r == [r[0]] + r[1..];
  }

  /**
   * The subtitle files on disk, by path, as parsed captions. Reading, parsing
   * and composing the file text is not part of this model.
   */
  class SubtitleFiles {
    var files: map<string, seq<Caption>>

    constructor(files: map<string, seq<Caption>>)
      ensures this.files == files
    {
      this.files := files;
    }

    /**
     * `add_translator_info`: a missing file is left alone; otherwise the
     * attribution is inserted at the front and the list is sorted,
     * renumbered and written back.
     */
    method AddTranslatorInfo(dest: string, info: string)
      modifies this
      ensures dest !in old(files) ==> files == old(files)
      ensures dest in old(files) ==>
        files == old(files)[dest := WithTranslatorInfo(old(files)[dest], info)]
    {
      if dest !in files {
        return;
      }
      var subtitles := files[dest];
      var end := if subtitles != [] && subtitles[0].start < FiveSeconds
        then subtitles[0].start else FiveSeconds;
      var start := if end == FiveSeconds then OneSecond else 0;
      var newSub := Caption(1, start, end, info);
      assert newSub == InfoCaption(files[dest], info);
      subtitles := [newSub] + subtitles;
      files := files[dest := SortAndReindex(subtitles)];
    }
  }
}
