/**
 * The pair list of the main window (gst_gui/gui/main_window.py): each row
 * has a text that starts with a ticked or an empty box, six values
 * (subtitle name, video name, title, year, folder, status) and one tag.
 * Toggling a row rewrites its text, status and tag in place; the selected
 * pairs are read from the ticked rows.
 *
 * The box characters are counted in code points, as Python counts them:
 * the ticked box is U+2611 followed by the variation selector U+FE0F.
 */
module MainWindowTree {
  import opened Common
  import opened Text

  const Checked: string := "\U{2611}\U{FE0F}"
  const Unchecked: string := "\U{2610}"
  const Paused: string := "\U{23F8}\U{FE0F}"
  /** The wrapper an unticked row's status gets: "⏸️ Skipped (" ... ")". */
  const SkippedPrefix: string := Paused + " Skipped ("

  /** A row: its text, its values and its tags. */
  datatype Row = Row(text: string, values: seq<string>, tags: seq<string>)

  /**
   * `_determine_tag_from_status`: the tag a status stands for, tested in the
   * order "Matched", "No match", "No subtitles", "Subtitle file"; anything
   * else counts as matched.
   */
  function DetermineTagFromStatus(status: string): string {
    if Contains(status, "Matched") then "matched"
    else if Contains(status, "No match") then "no_match"
    else if Contains(status, "No subtitles") then "video_only"
    else if Contains(status, "Subtitle file") then "subtitle_only"
    else "matched"
  }

  /** The status an unticked row shows. */
  function Skipped(status: string): (r: string)
    ensures StartsWith(r, SkippedPrefix)
  {
    SkippedPrefix + status + ")"
  }

  /** `status[12:-1]`: the status with the wrapper's twelve leading code points and last character cut off. */
  function Unwrapped(status: string): string {
    if |status| > 12 then status[12..|status| - 1] else []
  }

  lemma UnwrapSkipped(status: string)
    ensures Unwrapped(Skipped(status)) == status
  {
    assert |SkippedPrefix| == 12;
    assert Skipped(status)[12..|Skipped(status)| - 1] == status;
  }

  /** The status column (index 5) when the row has one. */
  function Status(values: seq<string>): string {
    if |values| >= 6 then values[5] else ""
  }

  /** A row is selected when its text starts with the ticked box. */
  predicate IsChecked(text: string) {
    StartsWith(text, Checked)
  }

  /** The row after `toggle_item_checkbox`. */
  function Toggled(row: Row): (r: Row)
    ensures IsChecked(r.text) <==> !IsChecked(row.text)
    ensures IsChecked(row.text) ==> r.tags == ["unchecked"] && StartsWith(r.text, Unchecked)
    ensures !IsChecked(row.text) && StartsWith(row.text, Unchecked) ==> r.tags == [DetermineTagFromStatus(Status(r.values))]
    ensures !IsChecked(row.text) && !StartsWith(row.text, Unchecked) ==>
      r == row.(text := Checked + " " + row.text)
    ensures |r.values| == |row.values|
    ensures forall k :: 0 <= k < |row.values| && k != 5 ==> r.values[k] == row.values[k]
  {
    var text, values := row.text, row.values;
    if StartsWith(text, Checked) then
      var newText := if StartsWith(text, Checked + " ") then Unchecked + " " + text[3..] else Unchecked + text[1..];
      var newValues := if |values| >= 6 && !StartsWith(values[5], Paused) then values[5 := Skipped(values[5])] else values;
      assert newText[0] == Unchecked[0] != Checked[0];
      Row(newText, newValues, ["unchecked"])
    else if StartsWith(text, Unchecked) then
      var newText := if StartsWith(text, Unchecked + " ") then Checked + " " + text[2..] else Checked + text[1..];
      var newValues := if |values| >= 6 && StartsWith(values[5], SkippedPrefix) then values[5 := Unwrapped(values[5])] else values;
      assert newText[..2] == Checked;
      Row(newText, newValues, [DetermineTagFromStatus(Status(newValues))])
    else
      assert (Checked + " " + text)[..2] == Checked;
      Row(Checked + " " + text, values, row.tags)
  }

  /**
   * Unticking a row whose text starts with the ticked box and a space, then
   * ticking it again, gives back its text and values; the tag is recomputed
   * from the status.
   */
  lemma UncheckThenCheck(row: Row)
    requires StartsWith(row.text, Checked + " ")
    requires |row.values| >= 6 ==> !StartsWith(row.values[5], Paused)
    ensures var back := Toggled(Toggled(row));
      && back.text == row.text
      && back.values == row.values
      && back.tags == [DetermineTagFromStatus(Status(row.values))]
  {
    var once := Toggled(row);
    assert once.text == Unchecked + " " + row.text[3..];
    assert StartsWith(once.text, Unchecked + " ");
    if |row.values| >= 6 {
      UnwrapSkipped(row.values[5]);
      assert once.values[5] == Skipped(row.values[5]);
    }
    assert row.text == Checked + " " + row.text[3..];
  }

  /**
   * Ticking a row whose text starts with the empty box and a space and whose
   * status is a wrapped one, then unticking it, gives back its text and values.
   */
  lemma CheckThenUncheck(row: Row, status: string)
    requires StartsWith(row.text, Unchecked + " ")
    requires |row.values| >= 6 && row.values[5] == Skipped(status) && !StartsWith(status, Paused)
    ensures var back := Toggled(Toggled(row));
      && back.text == row.text
      && back.values == row.values
      && back.tags == ["unchecked"]
  {
    var once := Toggled(row);
    assert !IsChecked(row.text) by {
      assert row.text[0] == Unchecked[0] != Checked[0];
    }
    UnwrapSkipped(status);
    assert once.values == row.values[5 := status];
    assert once.text == Checked + " " + row.text[2..];
    assert StartsWith(once.text, Checked + " ");
    assert row.text == Unchecked + " " + row.text[2..];
  }

  /** Unticking never wraps a status that already shows the pause sign. */
  lemma UncheckNeverWrapsTwice(row: Row)
    requires IsChecked(row.text) && |row.values| >= 6 && StartsWith(row.values[5], Paused)
    ensures Toggled(row).values == row.values
  {
  }

  /**
   * A row ticked without the space loses only U+2611 when unticked: the
   * variation selector stays behind the empty box.
   */
  lemma UncheckWithoutSpaceKeepsSelector(row: Row)
    requires IsChecked(row.text) && !StartsWith(row.text, Checked + " ")
    ensures Toggled(row).text == Unchecked + ['\U{FE0F}'] + row.text[2..]
  {
    assert row.text[1..] == ['\U{FE0F}'] + row.text[2..];
  }

  /** The statuses `find_video_matches` sets are mapped back to the tags it set with them. */
  lemma MatchStatusesGiveTheirTags(matched: string, noMatch: string, noSubtitles: string)
    requires matched == "\U{2705} Matched"
    requires noMatch == "\U{26A0}\U{FE0F} No match"
    requires noSubtitles == "\U{2139}\U{FE0F} No subtitles"
    ensures DetermineTagFromStatus(matched) == "matched"
    ensures DetermineTagFromStatus(noMatch) == "no_match"
    ensures DetermineTagFromStatus(noSubtitles) == "video_only"
  {
    ContainsAt(matched, "Matched", 2);
    NoMatchTag(noMatch);
    NoSubtitlesTag(noSubtitles);
  }

  lemma NoMatchTag(status: string)
    requires status == "\U{26A0}\U{FE0F} No match"
    ensures DetermineTagFromStatus(status) == "no_match"
  {
    NotContained(status, "Matched");
    ContainsAt(status, "No match", 3);
  }

  lemma NoSubtitlesTag(status: string)
    requires status == "\U{2139}\U{FE0F} No subtitles"
    ensures DetermineTagFromStatus(status) == "video_only"
  {
    NotContained(status, "Matched");
    NoSubtitlesIsNoNoMatch(status);
    assert status[3..15] == "No subtitles";
    ContainsAt(status, "No subtitles", 3);
  }

  lemma NoSubtitlesIsNoNoMatch(status: string)
    requires status == "\U{2139}\U{FE0F} No subtitles"
    ensures !Contains(status, "No match")
  {
    assert status[6] != "No match"[3];
    NotContained(status, "No match");
  }

  /** `sub` is not in `s` when no place where `s` holds the first character of `sub` starts a copy of it. */
  lemma {:induction false} NotContained(s: string, sub: string)
    requires sub != []
    requires forall k :: 0 <= k < |s| && s[k] == sub[0] ==> |s| < k + |sub| || s[k..k + |sub|] != sub
    ensures !Contains(s, sub)
    decreases |s|
  {
    if s != [] {
      var t := s[1..];
      forall k | 0 <= k < |t| && t[k] == sub[0] ensures |t| < k + |sub| || t[k..k + |sub|] != sub {
        assert s[k + 1] == t[k];
        if k + |sub| <= |t| {
          assert t[k..k + |sub|] == s[k + 1..k + 1 + |sub|];
        }
      }
      NotContained(t, sub);
      if |sub| <= |s| {
        assert s[..|sub|] == s[0..|sub|];
        assert s[..|sub|][0] == s[0];
      }
    }
  }

  // ---------------------------------------------------------------------
  // Selected pairs
  // ---------------------------------------------------------------------

  /** A selected entry: subtitle and video names ("None" read as no file) and the folder. */
  datatype SelectedPair = SelectedPair(subtitle: Option<string>, video: Option<string>, folder: string)

  function NoneAsMissing(value: string): (r: Option<string>)
    ensures r.None? <==> value == "None"
    ensures r.Some? ==> r.value == value
  {
    if value != "None" then Some(value) else None
  }

  /** The entry for a row with at least five values. */
  function PairOf(values: seq<string>): SelectedPair
    requires |values| >= 5
  {
    SelectedPair(NoneAsMissing(values[0]), NoneAsMissing(values[1]), if values[4] != "None" then values[4] else "")
  }

  /** Rows `get_selected_pairs` takes: ticked, with at least two values. */
  predicate Picked(row: Row) {
    IsChecked(row.text) && |row.values| >= 2
  }

  /**
   * `get_selected_pairs` over the rows in order: a picked row with fewer
   * than five values raises `IndexError` (the folder is read from index 4).
   */
  function SelectedPairs(rows: seq<Row>): (r: Outcome<seq<SelectedPair>>)
    ensures r.Returned? ==> |r.value| <= |rows|
    ensures r.Raised? ==> r.exception == "IndexError"
  {
    if rows == [] then Returned([])
    else
      var last := rows[|rows| - 1];
      match SelectedPairs(rows[..|rows| - 1])
      case Raised(e) => Raised(e)
      case Returned(ps) =>
        if !Picked(last) then Returned(ps)
        else if |last.values| < 5 then Raised("IndexError")
        else Returned(ps + [PairOf(last.values)])
  }

  /** The picked rows, in order. */
  function PickedRows(rows: seq<Row>): (r: seq<Row>)
    ensures |r| <= |rows|
    ensures forall k :: 0 <= k < |r| ==> Picked(r[k])
  {
    if rows == [] then []
    else PickedRows(rows[..|rows| - 1]) + (if Picked(rows[|rows| - 1]) then [rows[|rows| - 1]] else [])
  }

  /**
   * The selection succeeds exactly when every picked row has a folder
   * value, and then holds one entry per picked row, in order.
   */
  lemma {:induction false} SelectedPairsArePicked(rows: seq<Row>)
    ensures SelectedPairs(rows).Returned? <==> forall k :: 0 <= k < |rows| && Picked(rows[k]) ==> |rows[k].values| >= 5
    ensures SelectedPairs(rows).Raised? ==> SelectedPairs(rows).exception == "IndexError"
    ensures SelectedPairs(rows).Returned? ==>
      && |SelectedPairs(rows).value| == |PickedRows(rows)|
      && forall k :: 0 <= k < |PickedRows(rows)| ==>
           |PickedRows(rows)[k].values| >= 5 && SelectedPairs(rows).value[k] == PairOf(PickedRows(rows)[k].values)
  {
    if rows != [] {
      var init := rows[..|rows| - 1];
      SelectedPairsArePicked(init);
      assert forall k :: 0 <= k < |init| ==> init[k] == rows[k];
    }
  }

  /** The pair list as a tree of rows, in display order. */
  class PairTree {
    var rows: seq<Row>

    constructor(rows: seq<Row>)
      ensures this.rows == rows
    {
      this.rows := rows;
    }

    /** `toggle_item_checkbox` on the row at `item`; no other row changes. */
    method ToggleItemCheckbox(item: nat)
      requires item < |rows|
      modifies this
      ensures rows == old(rows)[item := Toggled(old(rows)[item])]
    {
      var row := rows[item];
      var currentText := row.text;
      var newValues := row.values;
      if StartsWith(currentText, Checked) {
        var newText;
        if StartsWith(currentText, Checked + " ") {
          newText := Unchecked + " " + currentText[3..];
        } else {
          newText := Unchecked + currentText[1..];
        }
        if |newValues| >= 6 {
          var originalStatus := newValues[5];
          if !StartsWith(originalStatus, Paused) {
            newValues := newValues[5 := Skipped(originalStatus)];
          }
        }
        rows := rows[item := Row(newText, newValues, ["unchecked"])];
      } else if StartsWith(currentText, Unchecked) {
        var newText;
        if StartsWith(currentText, Unchecked + " ") {
          newText := Checked + " " + currentText[2..];
        } else {
          newText := Checked + currentText[1..];
        }
        if |newValues| >= 6 {
          var currentStatus := newValues[5];
          if StartsWith(currentStatus, SkippedPrefix) {
            newValues := newValues[5 := Unwrapped(currentStatus)];
          }
        }
        var originalTag := DetermineTagFromStatus(if |newValues| >= 6 then newValues[5] else "");
        rows := rows[item := Row(newText, newValues, [originalTag])];
      } else {
        rows := rows[item := row.(text := Checked + " " + currentText)];
      }
    }

    /** `get_selected_pairs`: the entries of the ticked rows, in tree order. */
    method GetSelectedPairs() returns (r: Outcome<seq<SelectedPair>>)
      ensures r == SelectedPairs(rows)
    {
      var selected: seq<SelectedPair> := [];
      for i := 0 to |rows|
        invariant SelectedPairs(rows[..i]) == Returned(selected)
      {
        assert rows[..i + 1][..i] == rows[..i];
        var row := rows[i];
        if StartsWith(row.text, Checked) {
          var values := row.values;
          if |values| >= 2 {
            if |values| < 5 {
              assert SelectedPairs(rows[..i + 1]) == Raised("IndexError");
              SelectedPrefixRaises(rows, i + 1);
              return Raised("IndexError");
            }
            var subtitleFile := if values[0] != "None" then Some(values[0]) else None;
            var videoFile := if values[1] != "None" then Some(values[1]) else None;
            var folder := if values[4] != "None" then values[4] else "";
            selected := selected + [SelectedPair(subtitleFile, videoFile, folder)];
          }
        }
      }
      assert rows[..|rows|] == rows;
      return Returned(selected);
    }
  }

  /** Once a prefix of the rows raises, so do all the rows. */
  lemma {:induction false} SelectedPrefixRaises(rows: seq<Row>, n: nat)
    requires n <= |rows| && SelectedPairs(rows[..n]).Raised?
    ensures SelectedPairs(rows) == SelectedPairs(rows[..n])
    decreases |rows| - n
  {
    if n < |rows| {
      assert rows[..n + 1][..n] == rows[..n];
      SelectedPrefixRaises(rows, n + 1);
    } else {
      assert rows[..n] == rows;
    }
  }
}
