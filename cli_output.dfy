/**
 * The filter the command runner applies to each line the `gst` tool prints
 * (gst_gui/utils/cli_runner.py): the line is right-stripped, every ANSI
 * escape sequence matched by the runner's pattern is removed in one
 * left-to-right pass, and only a non-empty result is logged.
 */
module CliOutput {
  import opened Common
  import opened Text

  const Esc: char := '\U{1B}'

  /** A two-character escape: ESC followed by '@'..'Z' or '\\'..'_' ('[' is not among them). */
  predicate IsShortFinal(c: char) { '@' <= c <= 'Z' || '\\' <= c <= '_' }
  /** Control sequence parameter bytes '0'..'?'. */
  predicate IsParameter(c: char) { '0' <= c <= '?' }
  /** Control sequence intermediate bytes ' '..'/'. */
  predicate IsIntermediate(c: char) { ' ' <= c <= '/' }
  /** Control sequence final bytes '@'..'~'. */
  predicate IsFinal(c: char) { '@' <= c <= '~' }

  /** The end of the run of parameter bytes starting at `i`. */
  function ParameterEnd(s: string, i: nat): (r: nat)
    requires i <= |s|
    ensures i <= r <= |s|
    decreases |s| - i
  {
    if i < |s| && IsParameter(s[i]) then ParameterEnd(s, i + 1) else i
  }

  /** The run ends at the first byte of another kind. */
  lemma {:induction false} ParameterEndSpec(s: string, i: nat)
    requires i <= |s|
    ensures forall k :: i <= k < ParameterEnd(s, i) ==> IsParameter(s[k])
    ensures ParameterEnd(s, i) < |s| ==> !IsParameter(s[ParameterEnd(s, i)])
    decreases |s| - i
  {
    if i < |s| && IsParameter(s[i]) {
      ParameterEndSpec(s, i + 1);
    }
  }

  /** The end of the run of intermediate bytes starting at `i`. */
  function IntermediateEnd(s: string, i: nat): (r: nat)
    requires i <= |s|
    ensures i <= r <= |s|
    decreases |s| - i
  {
    if i < |s| && IsIntermediate(s[i]) then IntermediateEnd(s, i + 1) else i
  }

  /** The run ends at the first byte of another kind. */
  lemma {:induction false} IntermediateEndSpec(s: string, i: nat)
    requires i <= |s|
    ensures forall k :: i <= k < IntermediateEnd(s, i) ==> IsIntermediate(s[k])
    ensures IntermediateEnd(s, i) < |s| ==> !IsIntermediate(s[IntermediateEnd(s, i)])
    decreases |s| - i
  {
    if i < |s| && IsIntermediate(s[i]) {
      IntermediateEndSpec(s, i + 1);
    }
  }

  /**
   * Where a match of the escape pattern that starts at `i` ends, if one does.
   * The character classes of the three parts of a control sequence are
   * disjoint, so the greedy runs are the only way the pattern can match.
   */
  function EscapeEnd(s: string, i: nat): (r: Option<nat>)
    requires i < |s|
    ensures r.Some? ==> i + 2 <= r.value <= |s|
  {
    if s[i] != Esc || i + 1 == |s| then None
    else if IsShortFinal(s[i + 1]) then Some(i + 2)
    else if s[i + 1] != '[' then None
    else
      var q := IntermediateEnd(s, ParameterEnd(s, i + 2));
      if q < |s| && IsFinal(s[q]) then Some(q + 1) else None
  }

  /** `re.sub(pattern, '', s[i:])`: matches are removed left to right, the rest is copied. */
  function StripFrom(s: string, i: nat): (r: string)
    requires i <= |s|
    ensures |r| <= |s| - i
    decreases |s| - i
  {
    if i == |s| then []
    else match EscapeEnd(s, i)
      case Some(j) => StripFrom(s, j)
      case None => [s[i]] + StripFrom(s, i + 1)
  }

  function StripAnsi(s: string): (r: string)
    ensures |r| <= |s|
  {
    StripFrom(s, 0)
  }

  /** What the runner makes of one line it read: right-strip first, then remove escapes. */
  function FilterLine(line: string): (r: string)
    ensures |r| <= |line|
  {
    StripAnsi(TrimRight(line))
  }

  /** The lines the runner logs for the lines it read, in order. */
  function LoggedLines(lines: seq<string>): (r: seq<string>)
    ensures |r| <= |lines|
  {
    if lines == [] then []
    else
      var out := FilterLine(lines[0]);
      (if out != [] then [out] else []) + LoggedLines(lines[1..])
  }

  // ---------------------------------------------------------------------
  // Properties of the escape removal
  // ---------------------------------------------------------------------

  /** Removal only deletes characters: the result uses no character more often than the input. */
  lemma {:induction false} StripFromRemovesOnly(s: string, i: nat)
    requires i <= |s|
    ensures multiset(StripFrom(s, i)) <= multiset(s[i..])
    decreases |s| - i
  {
    if i < |s| {
      match EscapeEnd(s, i)
      case Some(j) =>
        assert StripFrom(s, i) == StripFrom(s, j);
        assert multiset(StripFrom(s, j)) <= multiset(s[i..]) by {
          StripFromRemovesOnly(s, j);
          assert s[i..] == s[i..j] + s[j..];
        }
      case None =>
        assert StripFrom(s, i) == [s[i]] + StripFrom(s, i + 1);
        assert multiset([s[i]] + StripFrom(s, i + 1)) <= multiset(s[i..]) by {
          StripFromRemovesOnly(s, i + 1);
          assert s[i..] == [s[i]] + s[i + 1..];
        }
    }
  }

  lemma StripAnsiRemovesOnly(s: string)
    ensures |StripAnsi(s)| <= |s|
    ensures multiset(StripAnsi(s)) <= multiset(s)
  {
    StripFromRemovesOnly(s, 0);
    assert s[0..] == s;
  }

  /** Text without ESC passes through unchanged. */
  lemma {:induction false} StripFromPlain(s: string, i: nat)
    requires i <= |s| && Esc !in s
    ensures StripFrom(s, i) == s[i..]
    decreases |s| - i
  {
    if i < |s| {
      assert s[i] in s;
      StripFromPlain(s, i + 1);
      assert s[i..] == [s[i]] + s[i + 1..];
    }
  }

  lemma PlainLineUnchanged(line: string)
    requires Esc !in line
    ensures FilterLine(line) == TrimRight(line)
  {
    var t := TrimRight(line);
    StripRightPrefix(line, Whitespace);
    assert Esc !in t by {
      forall k | 0 <= k < |t| ensures t[k] != Esc {
        assert t[k] == line[k];
        assert line[k] in line;
      }
    }
    StripFromPlain(t, 0);
    assert t[0..] == t;
  }

  /**
   * A pattern match looks only forward, so the removal of text that follows
   * plain text is the removal of that text on its own.
   */
  lemma {:induction false} ParameterEndShift(p: string, s: string, i: nat)
    requires i <= |s|
    ensures ParameterEnd(p + s, |p| + i) == |p| + ParameterEnd(s, i)
    decreases |s| - i
  {
    if i < |s| {
      assert (p + s)[|p| + i] == s[i];
      ParameterEndShift(p, s, i + 1);
    }
  }

  lemma {:induction false} IntermediateEndShift(p: string, s: string, i: nat)
    requires i <= |s|
    ensures IntermediateEnd(p + s, |p| + i) == |p| + IntermediateEnd(s, i)
    decreases |s| - i
  {
    if i < |s| {
      assert (p + s)[|p| + i] == s[i];
      IntermediateEndShift(p, s, i + 1);
    }
  }

  lemma EscapeEndShift(p: string, s: string, i: nat)
    requires i < |s|
    ensures EscapeEnd(p + s, |p| + i) ==
      (match EscapeEnd(s, i) case Some(j) => Some(|p| + j) case None => None)
  {
    var t := p + s;
    assert t[|p| + i] == s[i];
    if s[i] == Esc && i + 1 < |s| {
      assert t[|p| + i + 1] == s[i + 1];
      if !IsShortFinal(s[i + 1]) && s[i + 1] == '[' {
        ParameterEndShift(p, s, i + 2);
        IntermediateEndShift(p, s, ParameterEnd(s, i + 2));
        var q := IntermediateEnd(s, ParameterEnd(s, i + 2));
        if q < |s| {
          assert t[|p| + q] == s[q];
        }
      }
    }
  }

  lemma EscapeEndShiftSome(p: string, s: string, i: nat, j: nat)
    requires i < |s| && EscapeEnd(s, i) == Some(j)
    ensures EscapeEnd(p + s, |p| + i) == Some(|p| + j)
  {
    EscapeEndShift(p, s, i);
  }

  /** One step of the removal at `i`: skip a match, or copy one character. */
  lemma StripFromStep(t: string, i: nat)
    requires i < |t|
    ensures StripFrom(t, i) ==
      if EscapeEnd(t, i).Some? then StripFrom(t, EscapeEnd(t, i).value) else [t[i]] + StripFrom(t, i + 1)
  {
  }

  lemma {:induction false} StripFromShift(p: string, s: string, i: nat)
    requires i <= |s|
    ensures StripFrom(p + s, |p| + i) == StripFrom(s, i)
    decreases |s| - i, 1
  {
    if i < |s| {
      if EscapeEnd(s, i).Some? {
        StripFromShiftMatch(p, s, i);
      } else {
        StripFromShiftCopy(p, s, i);
      }
    }
  }

  /** A match from `i` to `j` is skipped as a whole. */
  lemma StripFromSkip(t: string, i: nat, j: nat)
    requires i < |t| && EscapeEnd(t, i) == Some(j)
    ensures StripFrom(t, i) == StripFrom(t, j)
  {
  }

  /** The step of StripFromShift where a match starts at `i`. */
  lemma {:induction false} StripFromShiftMatch(p: string, s: string, i: nat)
    requires i < |s| && EscapeEnd(s, i).Some?
    ensures StripFrom(p + s, |p| + i) == StripFrom(s, i)
    decreases |s| - i, 0
  {
    var j := EscapeEnd(s, i).value;
    EscapeEndShiftSome(p, s, i, j);
    StripFromSkip(p + s, |p| + i, |p| + j);
    StripFromSkip(s, i, j);
    StripFromShift(p, s, j);
  }

  /** The step of StripFromShift where the character at `i` is copied. */
  lemma {:induction false} StripFromShiftCopy(p: string, s: string, i: nat)
    requires i < |s| && EscapeEnd(s, i).None?
    ensures StripFrom(p + s, |p| + i) == StripFrom(s, i)
    decreases |s| - i, 0
  {
    EscapeEndShift(p, s, i);
    StripFromStep(p + s, |p| + i);
    StripFromStep(s, i);
    assert (p + s)[|p| + i] == s[i];
    StripFromShift(p, s, i + 1);
  }

  lemma {:induction false} StripFromPlainPrefix(p: string, s: string, i: nat)
    requires i <= |p| && Esc !in p
    ensures StripFrom(p + s, i) == p[i..] + StripFrom(p + s, |p|)
    decreases |p| - i
  {
    if i < |p| {
      assert (p + s)[i] == p[i];
      assert p[i] in p;
      StripFromPlainPrefix(p, s, i + 1);
      assert p[i..] == [p[i]] + p[i + 1..];
    }
  }

  lemma PlainPrefixKept(p: string, s: string)
    requires Esc !in p
    ensures StripAnsi(p + s) == p + StripAnsi(s)
  {
    StripFromPlainPrefix(p, s, 0);
    StripFromShift(p, s, 0);
    assert p[0..] == p;
  }

  /** The colour codes around a word are removed: "\x1b[31mHello\x1b[0m" gives "Hello". */
  lemma ColouredWordStripped(line: string)
    requires line == "\U{1B}[31mHello\U{1B}[0m"
    ensures FilterLine(line) == "Hello"
  {
    assert line[|line| - 1] !in Whitespace;
    assert TrimRight(line) == line;
    ColouredWordEscapesRemoved(line);
  }

  lemma ColouredWordEscapesRemoved(line: string)
    requires line == "\U{1B}[31mHello\U{1B}[0m"
    ensures StripFrom(line, 0) == "Hello"
  {
    ColourCodeRemoved(line, 0, 5);
    StripFromPlainRun(line, 5, 10);
    ColourCodeRemoved(line, 10, 14);
    assert StripFrom(line, 14) == [];
    assert line[5..10] == "Hello";
  }

  /** Characters other than ESC between `i` and `j` are copied. */
  lemma {:induction false} StripFromPlainRun(s: string, i: nat, j: nat)
    requires i <= j <= |s|
    requires forall k :: i <= k < j ==> s[k] != Esc
    ensures StripFrom(s, i) == s[i..j] + StripFrom(s, j)
    decreases j - i
  {
    if i < j {
      assert s[i] != Esc;
      assert EscapeEnd(s, i).None?;
      StripFromStep(s, i);
      StripFromPlainRun(s, i + 1, j);
      AppendAssoc([s[i]], s[i + 1..j], StripFrom(s, j));
      SliceCons(s, i, j);
    }
  }

  /** `ESC [ <digits> m` starting at `i` and ending before `j` is removed as a whole. */
  lemma ColourCodeRemoved(s: string, i: nat, j: nat)
    requires i + 3 <= j <= |s| && s[i] == Esc && s[i + 1] == '[' && s[j - 1] == 'm'
    requires forall k :: i + 2 <= k < j - 1 ==> IsDigit(s[k])
    ensures StripFrom(s, i) == StripFrom(s, j)
  {
    var p := ParameterEnd(s, i + 2);
    ParameterEndSpec(s, i + 2);
    assert !IsParameter(s[j - 1]);
    assert forall k :: i + 2 <= k < j - 1 ==> IsParameter(s[k]);
    assert p == j - 1;
    assert IntermediateEnd(s, p) == p;
    assert EscapeEnd(s, i) == Some(j);
  }

  /**
   * A single pass can leave an escape sequence behind: removing "ESC @" from
   * "ESC ESC @ @" joins the first ESC to the last '@'.
   */
  lemma OnePassCanLeaveEscape(s: string)
    requires s == [Esc, Esc, '@', '@']
    ensures StripAnsi(s) == [Esc, '@']
    ensures StripAnsi(StripAnsi(s)) == []
  {
    assert EscapeEnd(s, 0).None?;
    assert EscapeEnd(s, 1) == Some(3);
    assert EscapeEnd(s, 3).None?;
    assert StripFrom(s, 3) == ['@'];
    assert StripFrom(s, 1) == ['@'];
    var t := [Esc, '@'];
    assert EscapeEnd(t, 0) == Some(2);
    assert StripFrom(t, 0) == [];
  }

  // ---------------------------------------------------------------------
  // Properties of the logged lines
  // ---------------------------------------------------------------------

  /** Logging keeps the order of the lines and treats each line on its own. */
  lemma {:induction false} LoggedLinesAppend(a: seq<string>, b: seq<string>)
    ensures LoggedLines(a + b) == LoggedLines(a) + LoggedLines(b)
  {
    if a == [] {
      assert a + b == b;
    } else {
      var out := FilterLine(a[0]);
      var head := if out != [] then [out] else [];
      assert (a + b)[0] == a[0];
      assert (a + b)[1..] == a[1..] + b;
      assert LoggedLines(a + b) == head + LoggedLines(a[1..] + b);
      LoggedLinesAppend(a[1..], b);
      AppendAssoc(head, LoggedLines(a[1..]), LoggedLines(b));
    }
  }

  /** Reading one more line logs its filtered form after the earlier ones, unless it filters to nothing. */
  lemma LoggedLinesStep(lines: seq<string>, read: nat)
    requires read < |lines|
    ensures var out := FilterLine(lines[read]);
      LoggedLines(lines[..read + 1]) == LoggedLines(lines[..read]) + (if out != [] then [out] else [])
  {
    LoggedLinesAppend(lines[..read], [lines[read]]);
    assert lines[..read + 1] == lines[..read] + [lines[read]];
    assert [lines[read]][1..] == [];
  }

  /** Every logged line is the filtered form of a line that was read, and is not empty. */
  lemma {:induction false} LoggedLinesAreFiltered(lines: seq<string>)
    ensures forall k :: 0 <= k < |LoggedLines(lines)| ==>
      LoggedLines(lines)[k] != [] && exists j :: 0 <= j < |lines| && LoggedLines(lines)[k] == FilterLine(lines[j])
  {
    if lines != [] {
      LoggedLinesAreFiltered(lines[1..]);
      var rest := LoggedLines(lines[1..]);
      forall k | 0 <= k < |rest|
        ensures exists j :: 0 <= j < |lines| && rest[k] == FilterLine(lines[j])
      {
        var j :| 0 <= j < |lines[1..]| && rest[k] == FilterLine(lines[1..][j]);
        assert lines[1..][j] == lines[j + 1];
      }
    }
  }

  /** A line whose filtered form is not empty is logged. */
  lemma {:induction false} LoggedLineOf(lines: seq<string>, j: nat)
    requires j < |lines| && FilterLine(lines[j]) != []
    ensures FilterLine(lines[j]) in LoggedLines(lines)
  {
    if j > 0 {
      assert lines[1..][j - 1] == lines[j];
      LoggedLineOf(lines[1..], j - 1);
    }
  }
}
