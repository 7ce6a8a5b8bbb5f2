/**
 * The command runner's control flow (gst_gui/utils/cli_runner.py): running
 * one `gst` process and streaming its output, translating one pair of files,
 * and the batch loop with its success count and cancellation checks.
 *
 * The child process is an oracle (`ProcessRun`) that says what the runner
 * observes of it. The cancel event is the sequence of answers its `is_set()`
 * gives, in the order the runner asks; once the answers run out the last one
 * persists, and no answers at all means it is never set (which is also how a
 * missing event behaves).
 */
module CliBatch {
  import opened Common
  import opened Text
  import opened CliNames
  import opened CliCommand
  import opened CliOutput
  import opened CliAttribution

  /** The answer to the `k`-th call of `cancel_event.is_set()`. */
  function Answer(answers: seq<bool>, k: nat): bool {
    if answers == [] then false
    else if k < |answers| then answers[k]
    else answers[|answers| - 1]
  }

  /** What the runner observes of one child process. */
  datatype ProcessRun = ProcessRun(
    startFails: bool,      // starting the process raises
    lines: seq<string>,    // the lines read before the end of output
    waitTimesOut: bool,    // the one-second wait after the output ends expires
    exitCode: int,         // the code of a process left to finish
    terminatedCode: int)   // the code of a process terminated after that wait

  /** Whether the run succeeded, the lines logged, and how many cancel checks were made in all. */
  datatype Execution = Execution(success: bool, logged: seq<string>, asked: nat)

  /** The first of the cancel checks `first .. last` that answers set. */
  function FirstCancel(answers: seq<bool>, first: nat, last: nat): (r: Option<nat>)
    requires first <= last + 1
    ensures r.Some? ==> first <= r.value <= last && Answer(answers, r.value)
    ensures r.Some? ==> forall k :: first <= k < r.value ==> !Answer(answers, k)
    ensures r.None? ==> forall k :: first <= k <= last ==> !Answer(answers, k)
    decreases last + 1 - first
  {
    if first == last + 1 then None
    else if Answer(answers, first) then Some(first)
    else FirstCancel(answers, first + 1, last)
  }

  /** No check in `first .. last` answers set, so there is no first cancel. */
  lemma {:induction false} NoCancelAtAll(answers: seq<bool>, first: nat, last: nat)
    requires first <= last + 1
    requires forall k :: first <= k <= last ==> !Answer(answers, k)
    ensures FirstCancel(answers, first, last).None?
    decreases last + 1 - first
  {
    if first <= last {
      NoCancelAtAll(answers, first + 1, last);
    }
  }

  /** Check `j` answers set and none before it does, so it is the first cancel. */
  lemma {:induction false} NoEarlierCancel(answers: seq<bool>, first: nat, j: nat, last: nat)
    requires first <= j <= last && Answer(answers, j)
    requires forall k :: first <= k < j ==> !Answer(answers, k)
    ensures FirstCancel(answers, first, last) == Some(j)
    decreases j - first
  {
    if first < j {
      NoEarlierCancel(answers, first + 1, j, last);
    }
  }

  /**
   * `_execute_command`, from the cancel check numbered `asked` on. Before each
   * line is read (and before the end of output is seen) the cancel event is
   * checked; a set event terminates the process and fails the run. After the
   * output ends, a wait that times out checks the event once more. The run
   * succeeds exactly when the exit code is 0; a process that cannot be
   * started fails the run.
   */
  function ExecutionOf(run: ProcessRun, answers: seq<bool>, asked: nat): (r: Execution)
    ensures asked <= r.asked
    ensures |r.logged| <= |run.lines|
    ensures r.success ==> !run.startFails
  {
    if run.startFails then Execution(false, [], asked)
    else match FirstCancel(answers, asked, asked + |run.lines|)
      case Some(c) => Execution(false, LoggedLines(run.lines[..c - asked]), c + 1)
      case None =>
        var afterOutput := asked + |run.lines| + 1;
        if run.waitTimesOut then
          var code := if Answer(answers, afterOutput) then run.terminatedCode else run.exitCode;
          Execution(code == 0, LoggedLines(run.lines), afterOutput + 1)
        else Execution(run.exitCode == 0, LoggedLines(run.lines), afterOutput)
  }

  /** `_execute_command` on a child process: the streaming loop, then the wait for the exit code. */
  method ExecuteCommand(run: ProcessRun, answers: seq<bool>, asked: nat) returns (r: Execution)
    ensures r == ExecutionOf(run, answers, asked)
  {
    if run.startFails {
      return Execution(false, [], asked);
    }
    var cancel, logged := StreamOutput(run.lines, answers, asked);
    if cancel.Some? {
      return Execution(false, logged, cancel.value + 1);
    }
    var checks := asked + |run.lines| + 1;
    var code := run.exitCode;
    if run.waitTimesOut {
      var cancelled := Answer(answers, checks);
      checks := checks + 1;
      if cancelled {
        code := run.terminatedCode;
      }
    }
    return Execution(code == 0, logged, checks);
  }

  /**
   * The streaming loop of `_execute_command`: the event is checked before
   * each line and once more when the output ends; the first check that
   * answers set stops the loop. The lines read before it are logged.
   */
  method StreamOutput(lines: seq<string>, answers: seq<bool>, asked: nat) returns (cancel: Option<nat>, logged: seq<string>)
    ensures cancel == FirstCancel(answers, asked, asked + |lines|)
    ensures cancel.Some? ==> logged == LoggedLines(lines[..cancel.value - asked])
    ensures cancel.None? ==> logged == LoggedLines(lines)
  {
    var checks := asked;
    var read := 0;
    logged := [];
    while true
      invariant read <= |lines| && checks == asked + read
      invariant forall k :: asked <= k < checks ==> !Answer(answers, k)
      invariant logged == LoggedLines(lines[..read])
      decreases |lines| - read
    {
      if Answer(answers, checks) {
        NoEarlierCancel(answers, asked, checks, asked + |lines|);
        return Some(checks), logged;
      }
      checks := checks + 1;
      if read == |lines| {
        break;
      }
      var line := FilterLine(lines[read]);
      if line != [] {
        logged := logged + [line];
      }
      LoggedLinesStep(lines, read);
      read := read + 1;
    }
    NoCancelAtAll(answers, asked, asked + |lines|);
    assert lines[..read] == lines;
    return None, logged;
  }

  // ---------------------------------------------------------------------
  // One pair
  // ---------------------------------------------------------------------

  /** An entry of the batch: the `subtitle` and `video` values of the pair's dictionary. */
  datatype FilePair = FilePair(subtitle: Option<string>, video: Option<string>)

  /** What translating one pair does: its success, the checks made, and the subtitle files afterwards. */
  datatype PairResult = PairResult(success: bool, asked: nat, files: map<string, seq<Caption>>)

  /** The files after `add_translator_info(dest, info)`. */
  function FilesWithInfo(files: map<string, seq<Caption>>, dest: string, info: string): map<string, seq<Caption>> {
    if dest in files then files[dest := WithTranslatorInfo(files[dest], info)] else files
  }

  /**
   * `_run_single_translation`: a set event before the start skips the pair;
   * a pair with no usable file raises from the command builder; otherwise the
   * tool runs, and after a successful run that was not cancelled meanwhile
   * the attribution is added to the output file when the configuration asks
   * for it. The file is the corrected target (the command's `-o` value).
   */
  function PairTranslation(gst: string, pair: FilePair, config: TranslationConfig, codeOrder: seq<string>,
                           run: ProcessRun, answers: seq<bool>, asked: nat,
                           files: map<string, seq<Caption>>): (r: Outcome<PairResult>)
    ensures r.Raised? ==> r.exception == "TypeError"
    ensures r.Returned? ==> asked < r.value.asked
  {
    if Answer(answers, asked) then Returned(PairResult(false, asked + 1, files))
    else if OutputSource(pair.subtitle, pair.video).None? then Raised("TypeError")
    else
      var e := ExecutionOf(run, answers, asked + 1);
      if !e.success then Returned(PairResult(false, e.asked, files))
      else if Answer(answers, e.asked) then Returned(PairResult(true, e.asked + 1, files))
      else
        Returned(PairResult(true, e.asked + 1, FilesAfterAttribution(pair, config, codeOrder, files)))
  }

  /**
   * The files after the attribution step of `_run_single_translation`, for a
   * pair the command could be built for: the caption goes to the target when
   * the configuration asks for it.
   */
  function FilesAfterAttribution(pair: FilePair, config: TranslationConfig, codeOrder: seq<string>,
                                 files: map<string, seq<Caption>>): map<string, seq<Caption>>
    requires OutputSource(pair.subtitle, pair.video).Some?
  {
    var dest := AttributionTarget(pair.subtitle, pair.video, config, codeOrder).value;
    if config.AddTranslatorInfo() then FilesWithInfo(files, dest, TranslatorInfo(config.ModelForAttribution()))
    else files
  }

  /** The attribution step itself, on the store of subtitle files. */
  method AttachTranslatorInfo(pair: FilePair, config: TranslationConfig, codeOrder: seq<string>,
                              store: SubtitleFiles)
    requires OutputSource(pair.subtitle, pair.video).Some?
    modifies store
    ensures store.files == FilesAfterAttribution(pair, config, codeOrder, old(store.files))
  {
    var source := if Usable(pair.subtitle) then pair.subtitle.value else pair.video.value;
    var outputFile := OutputFilePath(source, config.LanguageCode(), codeOrder);
    assert outputFile == AttributionTarget(pair.subtitle, pair.video, config, codeOrder).value;
    if config.AddTranslatorInfo() {
      store.AddTranslatorInfo(outputFile, TranslatorInfo(config.ModelForAttribution()));
    }
  }

  /**
   * The attribution step as `_run_single_translation` writes it: the file is
   * named after the subtitle whenever the subtitle is truthy, placeholder or
   * not, else after the video; nothing changes when neither is given.
   */
  function FilesAfterAttributionAsWritten(pair: FilePair, config: TranslationConfig, codeOrder: seq<string>,
                                          files: map<string, seq<Caption>>): map<string, seq<Caption>>
  {
    match AttributionTargetAsWritten(pair.subtitle, pair.video, config, codeOrder)
    case None => files
    case Some(dest) =>
      if config.AddTranslatorInfo() then FilesWithInfo(files, dest, TranslatorInfo(config.ModelForAttribution()))
      else files
  }

  /**
   * The corrected attribution step writes what the program writes unless the
   * subtitle is a truthy placeholder.
   */
  lemma AttributionFilesAgree(pair: FilePair, config: TranslationConfig, codeOrder: seq<string>,
                              files: map<string, seq<Caption>>)
    requires OutputSource(pair.subtitle, pair.video).Some?
    requires !(Truthy(pair.subtitle) && IsSentinel(pair.subtitle.value))
    ensures FilesAfterAttributionAsWritten(pair, config, codeOrder, files)
      == FilesAfterAttribution(pair, config, codeOrder, files)
  {
    AttributionTargetsAgree(pair.subtitle, pair.video, config, codeOrder);
  }

  /**
   * For a truthy placeholder the program looks for a file named after the
   * placeholder; when that file does not exist, nothing is stamped at all.
   */
  lemma PlaceholderAttributionAsWritten(pair: FilePair, config: TranslationConfig, codeOrder: seq<string>,
                                        files: map<string, seq<Caption>>)
    requires Truthy(pair.subtitle) && IsSentinel(pair.subtitle.value)
    ensures var dest := AttributionTargetAsWritten(pair.subtitle, pair.video, config, codeOrder);
      && dest == Some(OutputFilePath(pair.subtitle.value, config.LanguageCode(), codeOrder))
      && (dest.value !in files ==> FilesAfterAttributionAsWritten(pair, config, codeOrder, files) == files)
  {
  }

  /**
   * The command for one pair. It is never empty, so the runner's check for a
   * command that could not be built never fires, and it tells the tool to
   * write exactly the file the attribution step later opens (the corrected
   * target).
   */
  method PairCommand(gst: string, pair: FilePair, config: TranslationConfig, codeOrder: seq<string>)
    returns (r: Outcome<seq<string>>)
    ensures r.Raised? <==> OutputSource(pair.subtitle, pair.video).None?
    ensures r.Raised? ==> r.exception == "TypeError"
    ensures r.Returned? ==>
      && r.value != []
      && ParseCommand(r.value).Some?
      && ParseCommand(r.value).value.args.output == AttributionTarget(pair.subtitle, pair.video, config, codeOrder)
  {
    r := BuildGstCommand(gst, pair.subtitle, pair.video, config, codeOrder);
    if r.Returned? {
      AttributionTargetIsCommandOutput(pair.subtitle, pair.video, config, codeOrder);
    }
  }

  method RunSingleTranslation(gst: string, pair: FilePair, config: TranslationConfig, codeOrder: seq<string>,
                              run: ProcessRun, answers: seq<bool>, asked: nat, store: SubtitleFiles)
    returns (r: Outcome<(bool, nat)>)
    modifies store
    ensures var spec := PairTranslation(gst, pair, config, codeOrder, run, answers, asked, old(store.files));
      && (r.Raised? <==> spec.Raised?)
      && (r.Raised? ==> r.exception == spec.exception)
      && (r.Returned? ==> r.value == (spec.value.success, spec.value.asked) && store.files == spec.value.files)
  {
    ghost var spec := PairTranslation(gst, pair, config, codeOrder, run, answers, asked, store.files);
    if Answer(answers, asked) {
      assert spec == Returned(PairResult(false, asked + 1, store.files));
      return Returned((false, asked + 1));
    }
    var cmd := PairCommand(gst, pair, config, codeOrder);
    if cmd.Raised? {
      assert spec == Raised("TypeError");
      return Raised(cmd.exception);
    }
    var success, checks := RunStartedPair(pair, config, codeOrder, run, answers, asked + 1, store);
    ghost var e := ExecutionOf(run, answers, asked + 1);
    if !e.success {
      assert spec == Returned(PairResult(false, e.asked, old(store.files)));
    } else if Answer(answers, e.asked) {
      assert spec == Returned(PairResult(true, e.asked + 1, old(store.files)));
    } else {
      assert spec == Returned(PairResult(true, e.asked + 1, FilesAfterAttribution(pair, config, codeOrder, old(store.files))));
    }
    return Returned((success, checks));
  }

  /**
   * `_run_single_translation` once the command is built: run the tool, and
   * after a successful run check the event once more and add the attribution
   * unless it is set.
   */
  method RunStartedPair(pair: FilePair, config: TranslationConfig, codeOrder: seq<string>,
                        run: ProcessRun, answers: seq<bool>, asked: nat, store: SubtitleFiles)
    returns (success: bool, checks: nat)
    requires OutputSource(pair.subtitle, pair.video).Some?
    modifies store
    ensures var e := ExecutionOf(run, answers, asked);
      && success == e.success
      && checks == (if e.success then e.asked + 1 else e.asked)
      && store.files == (if e.success && !Answer(answers, e.asked)
                         then FilesAfterAttribution(pair, config, codeOrder, old(store.files))
                         else old(store.files))
  {
    var e := ExecuteCommand(run, answers, asked);
    success, checks := e.success, e.asked;
    if e.success {
      var cancelled := Answer(answers, checks);
      checks := checks + 1;
      if !cancelled {
        AttachTranslatorInfo(pair, config, codeOrder, store);
      }
    }
  }

  // ---------------------------------------------------------------------
  // The batch
  // ---------------------------------------------------------------------

  /** The batch's result, how many pairs were started and succeeded, and the files afterwards. */
  datatype BatchResult = BatchResult(allSucceeded: bool, started: nat, succeeded: nat,
                                     files: map<string, seq<Caption>>)

  /**
   * After the loop: a set event makes the batch fail (and raises when the
   * batch was empty, since the loop variable was never bound); otherwise the
   * batch succeeds exactly when every pair did.
   */
  function Finish(total: nat, started: nat, succeeded: nat, answers: seq<bool>, asked: nat,
                  files: map<string, seq<Caption>>): Outcome<BatchResult>
  {
    if Answer(answers, asked) then
      if total == 0 then Raised("UnboundLocalError")
      else Returned(BatchResult(false, started, succeeded, files))
    else Returned(BatchResult(succeeded == total, started, succeeded, files))
  }

  /** The loop of `run_translation_batch` from pair `j` on. */
  function BatchFrom(gst: string, pairs: seq<FilePair>, runs: seq<ProcessRun>, config: TranslationConfig,
                     codeOrder: seq<string>, answers: seq<bool>, j: nat, succeeded: nat, asked: nat,
                     files: map<string, seq<Caption>>): (r: Outcome<BatchResult>)
    requires j <= |pairs| == |runs|
    ensures r.Returned? ==> j <= r.value.started <= |pairs|
    ensures r.Returned? ==> succeeded <= r.value.succeeded <= succeeded + (r.value.started - j)
    ensures r.Returned? && r.value.allSucceeded ==> r.value.succeeded == |pairs|
    decreases |pairs| - j
  {
    if j == |pairs| then Finish(|pairs|, j, succeeded, answers, asked, files)
    else if Answer(answers, asked) then Finish(|pairs|, j, succeeded, answers, asked + 1, files)
    else match PairTranslation(gst, pairs[j], config, codeOrder, runs[j], answers, asked + 1, files)
      case Raised(e) => Raised(e)
      case Returned(p) =>
        if p.success then
          BatchFrom(gst, pairs, runs, config, codeOrder, answers, j + 1, succeeded + 1, p.asked, p.files)
        else if Answer(answers, p.asked) then
          Finish(|pairs|, j + 1, succeeded, answers, p.asked + 1, p.files)
        else
          BatchFrom(gst, pairs, runs, config, codeOrder, answers, j + 1, succeeded, p.asked + 1, p.files)
  }

  /**
   * `run_translation_batch`: with no `gst` program the batch fails at once;
   * otherwise `runs[j]` is what the process of pair `j` does.
   */
  function Batch(gstCmd: Option<string>, pairs: seq<FilePair>, runs: seq<ProcessRun>, config: TranslationConfig,
                 codeOrder: seq<string>, answers: seq<bool>, files: map<string, seq<Caption>>): Outcome<BatchResult>
    requires |pairs| == |runs|
  {
    if gstCmd.None? then Returned(BatchResult(false, 0, 0, files))
    else BatchFrom(gstCmd.value, pairs, runs, config, codeOrder, answers, 0, 0, 0, files)
  }

  method RunTranslationBatch(gstCmd: Option<string>, pairs: seq<FilePair>, runs: seq<ProcessRun>,
                             config: TranslationConfig, codeOrder: seq<string>, answers: seq<bool>,
                             store: SubtitleFiles)
    returns (r: Outcome<BatchResult>)
    requires |pairs| == |runs|
    modifies store
    ensures r == Batch(gstCmd, pairs, runs, config, codeOrder, answers, old(store.files))
    ensures r.Returned? ==> store.files == r.value.files
  {
    if gstCmd.None? {
      return Returned(BatchResult(false, 0, 0, store.files));
    }
    var gst := gstCmd.value;
    ghost var spec := Batch(gstCmd, pairs, runs, config, codeOrder, answers, store.files);
    var succeeded := 0;
    var asked := 0;
    var started := 0;
    ghost var stopped := false;
    while started < |pairs|
      invariant started <= |pairs|
      invariant spec == BatchFrom(gst, pairs, runs, config, codeOrder, answers, started, succeeded, asked, store.files)
      decreases |pairs| - started
    {
      var raised, stop, nextStarted, nextSucceeded, nextAsked :=
        BatchTurn(gst, pairs, runs, config, codeOrder, answers, started, succeeded, asked, store);
      if raised.Some? {
        return Raised(raised.value);
      }
      started, succeeded, asked := nextStarted, nextSucceeded, nextAsked;
      if stop {
        stopped := true;
        break;
      }
    }
    if !stopped {
      BatchFromDone(gst, pairs, runs, config, codeOrder, answers, started, succeeded, asked, store.files);
    }
    assert spec == Finish(|pairs|, started, succeeded, answers, asked, store.files);
    if Answer(answers, asked) {
      if |pairs| == 0 {
        return Raised("UnboundLocalError");
      }
      return Returned(BatchResult(false, started, succeeded, store.files));
    }
    return Returned(BatchResult(succeeded == |pairs|, started, succeeded, store.files));
  }

  /**
   * One turn of the loop of `run_translation_batch`: the cancel check, then
   * pair `started`. It raises, stops the loop, or moves on to the next pair.
   */
  method BatchTurn(gst: string, pairs: seq<FilePair>, runs: seq<ProcessRun>, config: TranslationConfig,
                   codeOrder: seq<string>, answers: seq<bool>, started: nat, succeeded: nat, asked: nat,
                   store: SubtitleFiles)
    returns (raised: Option<string>, stop: bool, nextStarted: nat, nextSucceeded: nat, nextAsked: nat)
    requires started < |pairs| == |runs|
    modifies store
    ensures nextStarted <= |pairs|
    ensures !stop ==> nextStarted == started + 1
    ensures var spec := BatchFrom(gst, pairs, runs, config, codeOrder, answers, started, succeeded, asked, old(store.files));
      && (raised.Some? ==> spec == Raised(raised.value))
      && (raised.None? && stop ==> spec == Finish(|pairs|, nextStarted, nextSucceeded, answers, nextAsked, store.files))
      && (raised.None? && !stop ==>
            spec == BatchFrom(gst, pairs, runs, config, codeOrder, answers, nextStarted, nextSucceeded, nextAsked, store.files))
  {
    if Answer(answers, asked) {
      BatchFromDone(gst, pairs, runs, config, codeOrder, answers, started, succeeded, asked, store.files);
      return None, true, started, succeeded, asked + 1;
    }
    ghost var before := store.files;
    ghost var p := PairTranslation(gst, pairs[started], config, codeOrder, runs[started], answers, asked + 1, before);
    var res := RunSingleTranslation(gst, pairs[started], config, codeOrder, runs[started], answers, asked + 1, store);
    if res.Raised? {
      BatchFromRaised(gst, pairs, runs, config, codeOrder, answers, started, succeeded, asked, before, p.exception);
      return Some(res.exception), true, started, succeeded, asked;
    }
    var (success, checks) := res.value;
    if !success && Answer(answers, checks) {
      BatchFromStop(gst, pairs, runs, config, codeOrder, answers, started, succeeded, asked, before, p.value);
      return None, true, started + 1, succeeded, checks + 1;
    }
    BatchFromStep(gst, pairs, runs, config, codeOrder, answers, started, succeeded, asked, before, p.value);
    if success {
      return None, false, started + 1, succeeded + 1, checks;
    }
    return None, false, started + 1, succeeded, checks + 1;
  }

  // ---------------------------------------------------------------------
  // Properties of one run
  // ---------------------------------------------------------------------

  /** An event that never answers set, including a missing event. */
  predicate NeverSet(answers: seq<bool>) {
    true !in answers
  }

  lemma NeverSetAnswers(answers: seq<bool>, k: nat)
    requires NeverSet(answers)
    ensures !Answer(answers, k)
  {
    if answers != [] && k >= |answers| {
      assert answers[|answers| - 1] in answers;
    }
  }

  /** A run that is not cancelled succeeds exactly when it starts and exits with 0. */
  predicate ExitsCleanly(run: ProcessRun) {
    !run.startFails && run.exitCode == 0
  }

  /**
   * Whatever the answers, a run logs the filtered lines of a prefix of its
   * output, and it succeeds only when it started and none of the checks
   * made while reading found the event set.
   */
  lemma ExecutionLogsPrefix(run: ProcessRun, answers: seq<bool>, asked: nat)
    ensures var e := ExecutionOf(run, answers, asked);
      && asked <= e.asked
      && (exists n :: 0 <= n <= |run.lines| && e.logged == LoggedLines(run.lines[..n]))
      && (e.success ==> !run.startFails && forall k :: asked <= k <= asked + |run.lines| ==> !Answer(answers, k))
  {
    var e := ExecutionOf(run, answers, asked);
    if run.startFails {
      assert e.logged == LoggedLines(run.lines[..0]);
    } else if FirstCancel(answers, asked, asked + |run.lines|).None? {
      assert run.lines[..|run.lines|] == run.lines;
    }
  }

  /**
   * Without a cancel the whole output is logged, one check is made per line
   * read plus one at the end of output (and one more after a wait that times
   * out), and the run succeeds exactly when it starts and exits with 0.
   */
  lemma UncancelledExecution(run: ProcessRun, answers: seq<bool>, asked: nat)
    requires NeverSet(answers)
    ensures var e := ExecutionOf(run, answers, asked);
      && e.success == ExitsCleanly(run)
      && (!run.startFails ==> e.logged == LoggedLines(run.lines))
      && e.asked == if run.startFails then asked
                    else asked + |run.lines| + 1 + (if run.waitTimesOut then 1 else 0)
  {
    if !run.startFails {
      forall k | asked <= k <= asked + |run.lines| ensures !Answer(answers, k) {
        NeverSetAnswers(answers, k);
      }
      NoCancelAtAll(answers, asked, asked + |run.lines|);
      NeverSetAnswers(answers, asked + |run.lines| + 1);
    }
  }

  // ---------------------------------------------------------------------
  // Properties of one pair
  // ---------------------------------------------------------------------

  /**
   * Without a cancel, a pair the command can be built for succeeds exactly
   * when its run exits cleanly, and only then is the attribution added.
   */
  lemma UncancelledPair(gst: string, pair: FilePair, config: TranslationConfig, codeOrder: seq<string>,
                        run: ProcessRun, answers: seq<bool>, asked: nat, files: map<string, seq<Caption>>)
    requires NeverSet(answers)
    requires OutputSource(pair.subtitle, pair.video).Some?
    ensures var p := PairTranslation(gst, pair, config, codeOrder, run, answers, asked, files);
      && p.Returned?
      && p.value.success == ExitsCleanly(run)
      && p.value.files == (if ExitsCleanly(run) then FilesAfterAttribution(pair, config, codeOrder, files) else files)
  {
    NeverSetAnswers(answers, asked);
    UncancelledExecution(run, answers, asked + 1);
    NeverSetAnswers(answers, ExecutionOf(run, answers, asked + 1).asked);
  }

  /**
   * Unless the subtitle is a truthy placeholder, the model stamps the same
   * file as the program as written: without a cancel, a pair's files are the
   * as-written attribution exactly when its run exits cleanly.
   */
  lemma UncancelledPairAsWritten(gst: string, pair: FilePair, config: TranslationConfig, codeOrder: seq<string>,
                                 run: ProcessRun, answers: seq<bool>, asked: nat, files: map<string, seq<Caption>>)
    requires NeverSet(answers)
    requires OutputSource(pair.subtitle, pair.video).Some?
    requires !(Truthy(pair.subtitle) && IsSentinel(pair.subtitle.value))
    ensures var p := PairTranslation(gst, pair, config, codeOrder, run, answers, asked, files);
      && p.Returned?
      && p.value.files
         == (if ExitsCleanly(run) then FilesAfterAttributionAsWritten(pair, config, codeOrder, files) else files)
  {
    UncancelledPair(gst, pair, config, codeOrder, run, answers, asked, files);
    AttributionFilesAgree(pair, config, codeOrder, files);
  }

  /** A pair fails only by raising `TypeError`, and only when neither file can name the output. */
  lemma PairRaises(gst: string, pair: FilePair, config: TranslationConfig, codeOrder: seq<string>,
                   run: ProcessRun, answers: seq<bool>, asked: nat, files: map<string, seq<Caption>>)
    ensures var p := PairTranslation(gst, pair, config, codeOrder, run, answers, asked, files);
      && (p.Raised? <==> !Answer(answers, asked) && OutputSource(pair.subtitle, pair.video).None?)
      && (p.Raised? ==> p.exception == "TypeError")
      && (p.Returned? ==> asked < p.value.asked)
  {
    if !Answer(answers, asked) && OutputSource(pair.subtitle, pair.video).Some? {
      ExecutionLogsPrefix(run, answers, asked + 1);
    }
  }

  /** The subtitle files never decide how a pair ends: only what is written differs. */
  lemma PairIgnoresFiles(gst: string, pair: FilePair, config: TranslationConfig, codeOrder: seq<string>,
                         run: ProcessRun, answers: seq<bool>, asked: nat,
                         files1: map<string, seq<Caption>>, files2: map<string, seq<Caption>>)
    ensures var p1 := PairTranslation(gst, pair, config, codeOrder, run, answers, asked, files1);
      var p2 := PairTranslation(gst, pair, config, codeOrder, run, answers, asked, files2);
      && p1.Raised? == p2.Raised?
      && (p1.Raised? ==> p1.exception == p2.exception)
      && (p1.Returned? ==> p1.value.success == p2.value.success && p1.value.asked == p2.value.asked)
  {
  }

  // ---------------------------------------------------------------------
  // Properties of the batch
  // ---------------------------------------------------------------------

  /** How many of the runs exit cleanly. */
  function Successes(runs: seq<ProcessRun>): (r: nat)
    ensures r <= |runs|
  {
    if runs == [] then 0 else (if ExitsCleanly(runs[0]) then 1 else 0) + Successes(runs[1..])
  }

  lemma {:induction false} SuccessesAll(runs: seq<ProcessRun>)
    ensures Successes(runs) == |runs| <==> forall k :: 0 <= k < |runs| ==> ExitsCleanly(runs[k])
  {
    if runs != [] {
      SuccessesAll(runs[1..]);
      assert forall k :: 1 <= k < |runs| ==> runs[k] == runs[1..][k - 1];
    }
  }

  /** The loop ends when the pairs run out or the event is set before a pair. */
  lemma BatchFromDone(gst: string, pairs: seq<FilePair>, runs: seq<ProcessRun>,
                      config: TranslationConfig, codeOrder: seq<string>, answers: seq<bool>,
                      j: nat, succeeded: nat, asked: nat, files: map<string, seq<Caption>>)
    requires j <= |pairs| == |runs|
    requires j == |pairs| || Answer(answers, asked)
    ensures BatchFrom(gst, pairs, runs, config, codeOrder, answers, j, succeeded, asked, files)
      == Finish(|pairs|, j, succeeded, answers, if j == |pairs| then asked else asked + 1, files)
  {
  }

  /** One pair of the loop that neither raises nor stops it. */
  lemma BatchFromStep(gst: string, pairs: seq<FilePair>, runs: seq<ProcessRun>,
                      config: TranslationConfig, codeOrder: seq<string>, answers: seq<bool>,
                      j: nat, succeeded: nat, asked: nat, files: map<string, seq<Caption>>, p: PairResult)
    requires j < |pairs| == |runs| && !Answer(answers, asked)
    requires PairTranslation(gst, pairs[j], config, codeOrder, runs[j], answers, asked + 1, files) == Returned(p)
    requires p.success || !Answer(answers, p.asked)
    ensures BatchFrom(gst, pairs, runs, config, codeOrder, answers, j, succeeded, asked, files)
      == BatchFrom(gst, pairs, runs, config, codeOrder, answers, j + 1,
                   if p.success then succeeded + 1 else succeeded,
                   if p.success then p.asked else p.asked + 1, p.files)
  {
  }

  /** A pair that fails while the event is set ends the loop. */
  lemma BatchFromStop(gst: string, pairs: seq<FilePair>, runs: seq<ProcessRun>,
                      config: TranslationConfig, codeOrder: seq<string>, answers: seq<bool>,
                      j: nat, succeeded: nat, asked: nat, files: map<string, seq<Caption>>, p: PairResult)
    requires j < |pairs| == |runs| && !Answer(answers, asked)
    requires PairTranslation(gst, pairs[j], config, codeOrder, runs[j], answers, asked + 1, files) == Returned(p)
    requires !p.success && Answer(answers, p.asked)
    ensures BatchFrom(gst, pairs, runs, config, codeOrder, answers, j, succeeded, asked, files)
      == Finish(|pairs|, j + 1, succeeded, answers, p.asked + 1, p.files)
  {
  }

  /** A pair that raises ends the batch with its exception. */
  lemma BatchFromRaised(gst: string, pairs: seq<FilePair>, runs: seq<ProcessRun>,
                        config: TranslationConfig, codeOrder: seq<string>, answers: seq<bool>,
                        j: nat, succeeded: nat, asked: nat, files: map<string, seq<Caption>>, e: string)
    requires j < |pairs| == |runs| && !Answer(answers, asked)
    requires PairTranslation(gst, pairs[j], config, codeOrder, runs[j], answers, asked + 1, files) == Raised(e)
    ensures BatchFrom(gst, pairs, runs, config, codeOrder, answers, j, succeeded, asked, files) == Raised(e)
  {
  }

  /** The batch never counts more successes than pairs started, nor starts more pairs than it has. */
  lemma BatchFromCounts(gst: string, pairs: seq<FilePair>, runs: seq<ProcessRun>,
                        config: TranslationConfig, codeOrder: seq<string>, answers: seq<bool>,
                        j: nat, succeeded: nat, asked: nat, files: map<string, seq<Caption>>)
    requires j <= |pairs| == |runs| && succeeded <= j
    ensures var r := BatchFrom(gst, pairs, runs, config, codeOrder, answers, j, succeeded, asked, files);
      r.Returned? ==>
        && succeeded <= r.value.succeeded <= r.value.started <= |pairs|
        && j <= r.value.started
        && (r.value.allSucceeded ==> r.value.succeeded == r.value.started == |pairs|)
  {
  }


  /** When the event is never set from check `asked` on, a batch in which every pair succeeded succeeds. */
  lemma {:induction false} BatchFromAllSucceeded(gst: string, pairs: seq<FilePair>, runs: seq<ProcessRun>,
                                                 config: TranslationConfig, codeOrder: seq<string>,
                                                 answers: seq<bool>, j: nat, succeeded: nat, asked: nat,
                                                 files: map<string, seq<Caption>>)
    requires j <= |pairs| == |runs|
    requires forall k :: asked <= k ==> !Answer(answers, k)
    ensures var r := BatchFrom(gst, pairs, runs, config, codeOrder, answers, j, succeeded, asked, files);
      r.Returned? && r.value.succeeded == |pairs| ==> r.value.allSucceeded
    decreases |pairs| - j
  {
    if j < |pairs| {
      var p := PairTranslation(gst, pairs[j], config, codeOrder, runs[j], answers, asked + 1, files);
      PairRaises(gst, pairs[j], config, codeOrder, runs[j], answers, asked + 1, files);
      if p.Raised? {
        BatchFromRaised(gst, pairs, runs, config, codeOrder, answers, j, succeeded, asked, files, p.exception);
      } else {
        var q := p.value;
        BatchFromStep(gst, pairs, runs, config, codeOrder, answers, j, succeeded, asked, files, q);
        BatchFromAllSucceeded(gst, pairs, runs, config, codeOrder, answers, j + 1,
                              if q.success then succeeded + 1 else succeeded,
                              if q.success then q.asked else q.asked + 1, q.files);
      }
    }
  }

  lemma BatchCounts(gstCmd: Option<string>, pairs: seq<FilePair>, runs: seq<ProcessRun>, config: TranslationConfig,
                    codeOrder: seq<string>, answers: seq<bool>, files: map<string, seq<Caption>>)
    requires |pairs| == |runs|
    ensures var r := Batch(gstCmd, pairs, runs, config, codeOrder, answers, files);
      r.Returned? ==>
        && r.value.succeeded <= r.value.started <= |pairs|
        && (r.value.allSucceeded ==> r.value.succeeded == r.value.started == |pairs|)
        && (gstCmd.Some? && r.value.succeeded == |pairs| && (forall k :: !Answer(answers, k))
            ==> r.value.allSucceeded)
  {
    if gstCmd.Some? {
      BatchFromCounts(gstCmd.value, pairs, runs, config, codeOrder, answers, 0, 0, 0, files);
      if forall k :: !Answer(answers, k) {
        BatchFromAllSucceeded(gstCmd.value, pairs, runs, config, codeOrder, answers, 0, 0, 0, files);
      }
    }
  }

  /**
   * The batch raises only `TypeError`, from a pair neither of whose files
   * can name the output, or `UnboundLocalError`, when the batch is empty and
   * the event is set.
   */
  lemma {:induction false} BatchFromRaises(gst: string, pairs: seq<FilePair>, runs: seq<ProcessRun>,
                                           config: TranslationConfig, codeOrder: seq<string>, answers: seq<bool>,
                                           j: nat, succeeded: nat, asked: nat, files: map<string, seq<Caption>>)
    requires j <= |pairs| == |runs|
    ensures var r := BatchFrom(gst, pairs, runs, config, codeOrder, answers, j, succeeded, asked, files);
      r.Raised? ==>
        || (r.exception == "TypeError"
            && exists k :: j <= k < |pairs| && OutputSource(pairs[k].subtitle, pairs[k].video).None?)
        || (r.exception == "UnboundLocalError" && pairs == [])
    decreases |pairs| - j
  {
    if j < |pairs| && !Answer(answers, asked) {
      var p := PairTranslation(gst, pairs[j], config, codeOrder, runs[j], answers, asked + 1, files);
      PairRaises(gst, pairs[j], config, codeOrder, runs[j], answers, asked + 1, files);
      if p.Raised? {
        BatchFromRaised(gst, pairs, runs, config, codeOrder, answers, j, succeeded, asked, files, p.exception);
      } else if !p.value.success && Answer(answers, p.value.asked) {
        BatchFromStop(gst, pairs, runs, config, codeOrder, answers, j, succeeded, asked, files, p.value);
      } else {
        var q := p.value;
        BatchFromStep(gst, pairs, runs, config, codeOrder, answers, j, succeeded, asked, files, q);
        BatchFromRaises(gst, pairs, runs, config, codeOrder, answers, j + 1,
                        if q.success then succeeded + 1 else succeeded,
                        if q.success then q.asked else q.asked + 1, q.files);
      }
    }
  }

  lemma BatchRaises(gstCmd: Option<string>, pairs: seq<FilePair>, runs: seq<ProcessRun>, config: TranslationConfig,
                    codeOrder: seq<string>, answers: seq<bool>, files: map<string, seq<Caption>>)
    requires |pairs| == |runs|
    ensures var r := Batch(gstCmd, pairs, runs, config, codeOrder, answers, files);
      r.Raised? ==>
        || (r.exception == "TypeError"
            && exists k :: 0 <= k < |pairs| && OutputSource(pairs[k].subtitle, pairs[k].video).None?)
        || (r.exception == "UnboundLocalError" && pairs == [])
  {
    if gstCmd.Some? {
      BatchFromRaises(gstCmd.value, pairs, runs, config, codeOrder, answers, 0, 0, 0, files);
    }
  }

  /**
   * Without a cancel, every pair is started, the successes are exactly the
   * runs that exit cleanly, and the batch succeeds exactly when all of them do.
   */
  lemma {:induction false} UncancelledBatchFrom(gst: string, pairs: seq<FilePair>, runs: seq<ProcessRun>,
                                                config: TranslationConfig, codeOrder: seq<string>, answers: seq<bool>,
                                                j: nat, succeeded: nat, asked: nat, files: map<string, seq<Caption>>)
    requires j <= |pairs| == |runs|
    requires NeverSet(answers)
    requires forall k :: j <= k < |pairs| ==> OutputSource(pairs[k].subtitle, pairs[k].video).Some?
    ensures var r := BatchFrom(gst, pairs, runs, config, codeOrder, answers, j, succeeded, asked, files);
      && r.Returned?
      && r.value.started == |pairs|
      && r.value.succeeded == succeeded + Successes(runs[j..])
      && r.value.allSucceeded == (succeeded + Successes(runs[j..]) == |pairs|)
    decreases |pairs| - j
  {
    NeverSetAnswers(answers, asked);
    if j < |pairs| {
      UncancelledPair(gst, pairs[j], config, codeOrder, runs[j], answers, asked + 1, files);
      var p := PairTranslation(gst, pairs[j], config, codeOrder, runs[j], answers, asked + 1, files).value;
      NeverSetAnswers(answers, p.asked);
      BatchFromStep(gst, pairs, runs, config, codeOrder, answers, j, succeeded, asked, files, p);
      assert runs[j..][1..] == runs[j + 1..];
      UncancelledBatchFrom(gst, pairs, runs, config, codeOrder, answers, j + 1,
                           if p.success then succeeded + 1 else succeeded,
                           if p.success then p.asked else p.asked + 1, p.files);
    }
  }

  lemma UncancelledBatch(gst: string, pairs: seq<FilePair>, runs: seq<ProcessRun>, config: TranslationConfig,
                         codeOrder: seq<string>, answers: seq<bool>, files: map<string, seq<Caption>>)
    requires |pairs| == |runs|
    requires NeverSet(answers)
    requires forall k :: 0 <= k < |pairs| ==> OutputSource(pairs[k].subtitle, pairs[k].video).Some?
    ensures var r := Batch(Some(gst), pairs, runs, config, codeOrder, answers, files);
      && r.Returned?
      && r.value.started == |pairs|
      && r.value.succeeded == Successes(runs)
      && (r.value.allSucceeded <==> forall k :: 0 <= k < |runs| ==> ExitsCleanly(runs[k]))
  {
    UncancelledBatchFrom(gst, pairs, runs, config, codeOrder, answers, 0, 0, 0, files);
    assert runs[0..] == runs;
    SuccessesAll(runs);
  }

  /** Two batch outcomes that agree on how the batch ended, whatever the files. */
  predicate SameEnding(r1: Outcome<BatchResult>, r2: Outcome<BatchResult>) {
    && r1.Raised? == r2.Raised?
    && (r1.Raised? ==> r1.exception == r2.exception)
    && (r1.Returned? ==>
          && r1.value.allSucceeded == r2.value.allSucceeded
          && r1.value.started == r2.value.started
          && r1.value.succeeded == r2.value.succeeded)
  }

  /** The subtitle files never decide how the batch ends. */
  lemma {:induction false} BatchFromIgnoresFiles(gst: string, pairs: seq<FilePair>, runs: seq<ProcessRun>,
                                                 config: TranslationConfig, codeOrder: seq<string>, answers: seq<bool>,
                                                 j: nat, succeeded: nat, asked: nat,
                                                 files1: map<string, seq<Caption>>, files2: map<string, seq<Caption>>)
    requires j <= |pairs| == |runs|
    ensures SameEnding(BatchFrom(gst, pairs, runs, config, codeOrder, answers, j, succeeded, asked, files1),
                       BatchFrom(gst, pairs, runs, config, codeOrder, answers, j, succeeded, asked, files2))
    decreases |pairs| - j, 2
  {
    if j == |pairs| || Answer(answers, asked) {
      BatchFromDone(gst, pairs, runs, config, codeOrder, answers, j, succeeded, asked, files1);
      BatchFromDone(gst, pairs, runs, config, codeOrder, answers, j, succeeded, asked, files2);
    } else {
      PairStepIgnoresFiles(gst, pairs, runs, config, codeOrder, answers, j, succeeded, asked, files1, files2);
    }
  }

  /** The step of BatchFromIgnoresFiles for a pair that is started. */
  lemma {:induction false} PairStepIgnoresFiles(gst: string, pairs: seq<FilePair>, runs: seq<ProcessRun>,
                                                config: TranslationConfig, codeOrder: seq<string>, answers: seq<bool>,
                                                j: nat, succeeded: nat, asked: nat,
                                                files1: map<string, seq<Caption>>, files2: map<string, seq<Caption>>)
    requires j < |pairs| == |runs| && !Answer(answers, asked)
    ensures SameEnding(BatchFrom(gst, pairs, runs, config, codeOrder, answers, j, succeeded, asked, files1),
                       BatchFrom(gst, pairs, runs, config, codeOrder, answers, j, succeeded, asked, files2))
    decreases |pairs| - j, 1
  {
    var p1 := PairTranslation(gst, pairs[j], config, codeOrder, runs[j], answers, asked + 1, files1);
    var p2 := PairTranslation(gst, pairs[j], config, codeOrder, runs[j], answers, asked + 1, files2);
    PairIgnoresFiles(gst, pairs[j], config, codeOrder, runs[j], answers, asked + 1, files1, files2);
    if p1.Raised? {
      RaisedStepIgnoresFiles(gst, pairs, runs, config, codeOrder, answers, j, succeeded, asked, files1, files2, p1.exception);
    } else if !p1.value.success && Answer(answers, p1.value.asked) {
      StopStepIgnoresFiles(gst, pairs, runs, config, codeOrder, answers, j, succeeded, asked, files1, files2, p1.value, p2.value);
    } else {
      ContinueStepIgnoresFiles(gst, pairs, runs, config, codeOrder, answers, j, succeeded, asked, files1, files2, p1.value, p2.value);
    }
  }

  /** A pair after which the batch goes on leaves both batches at the same counts for the rest. */
  lemma {:induction false} ContinueStepIgnoresFiles(gst: string, pairs: seq<FilePair>, runs: seq<ProcessRun>,
                                                    config: TranslationConfig, codeOrder: seq<string>, answers: seq<bool>,
                                                    j: nat, succeeded: nat, asked: nat,
                                                    files1: map<string, seq<Caption>>, files2: map<string, seq<Caption>>,
                                                    q1: PairResult, q2: PairResult)
    requires j < |pairs| == |runs| && !Answer(answers, asked)
    requires PairTranslation(gst, pairs[j], config, codeOrder, runs[j], answers, asked + 1, files1) == Returned(q1)
    requires PairTranslation(gst, pairs[j], config, codeOrder, runs[j], answers, asked + 1, files2) == Returned(q2)
    requires !(!q1.success && Answer(answers, q1.asked)) && q2.success == q1.success && q2.asked == q1.asked
    ensures SameEnding(BatchFrom(gst, pairs, runs, config, codeOrder, answers, j, succeeded, asked, files1),
                       BatchFrom(gst, pairs, runs, config, codeOrder, answers, j, succeeded, asked, files2))
    decreases |pairs| - j, 0
  {
    BatchFromStep(gst, pairs, runs, config, codeOrder, answers, j, succeeded, asked, files1, q1);
    BatchFromStep(gst, pairs, runs, config, codeOrder, answers, j, succeeded, asked, files2, q2);
    var s := if q1.success then succeeded + 1 else succeeded;
    var a := if q1.success then q1.asked else q1.asked + 1;
    BatchFromIgnoresFiles(gst, pairs, runs, config, codeOrder, answers, j + 1, s, a, q1.files, q2.files);
  }

  /** A pair that raises ends both batches with the same exception. */
  lemma RaisedStepIgnoresFiles(gst: string, pairs: seq<FilePair>, runs: seq<ProcessRun>,
                               config: TranslationConfig, codeOrder: seq<string>, answers: seq<bool>,
                               j: nat, succeeded: nat, asked: nat,
                               files1: map<string, seq<Caption>>, files2: map<string, seq<Caption>>, e: string)
    requires j < |pairs| == |runs| && !Answer(answers, asked)
    requires PairTranslation(gst, pairs[j], config, codeOrder, runs[j], answers, asked + 1, files1) == Raised(e)
    requires PairTranslation(gst, pairs[j], config, codeOrder, runs[j], answers, asked + 1, files2) == Raised(e)
    ensures SameEnding(BatchFrom(gst, pairs, runs, config, codeOrder, answers, j, succeeded, asked, files1),
                       BatchFrom(gst, pairs, runs, config, codeOrder, answers, j, succeeded, asked, files2))
  {
    BatchFromRaised(gst, pairs, runs, config, codeOrder, answers, j, succeeded, asked, files1, e);
    BatchFromRaised(gst, pairs, runs, config, codeOrder, answers, j, succeeded, asked, files2, e);
  }

  /** A pair that fails while the event is set ends both batches with the same counts. */
  lemma StopStepIgnoresFiles(gst: string, pairs: seq<FilePair>, runs: seq<ProcessRun>,
                             config: TranslationConfig, codeOrder: seq<string>, answers: seq<bool>,
                             j: nat, succeeded: nat, asked: nat,
                             files1: map<string, seq<Caption>>, files2: map<string, seq<Caption>>,
                             q1: PairResult, q2: PairResult)
    requires j < |pairs| == |runs| && !Answer(answers, asked)
    requires PairTranslation(gst, pairs[j], config, codeOrder, runs[j], answers, asked + 1, files1) == Returned(q1)
    requires PairTranslation(gst, pairs[j], config, codeOrder, runs[j], answers, asked + 1, files2) == Returned(q2)
    requires !q1.success && Answer(answers, q1.asked) && q2.success == q1.success && q2.asked == q1.asked
    ensures SameEnding(BatchFrom(gst, pairs, runs, config, codeOrder, answers, j, succeeded, asked, files1),
                       BatchFrom(gst, pairs, runs, config, codeOrder, answers, j, succeeded, asked, files2))
  {
    BatchFromStop(gst, pairs, runs, config, codeOrder, answers, j, succeeded, asked, files1, q1);
    BatchFromStop(gst, pairs, runs, config, codeOrder, answers, j, succeeded, asked, files2, q2);
  }

  lemma BatchIgnoresFiles(gstCmd: Option<string>, pairs: seq<FilePair>, runs: seq<ProcessRun>,
                          config: TranslationConfig, codeOrder: seq<string>, answers: seq<bool>,
                          files1: map<string, seq<Caption>>, files2: map<string, seq<Caption>>)
    requires |pairs| == |runs|
    ensures SameEnding(Batch(gstCmd, pairs, runs, config, codeOrder, answers, files1),
                       Batch(gstCmd, pairs, runs, config, codeOrder, answers, files2))
  {
    if gstCmd.Some? {
      BatchFromIgnoresFiles(gstCmd.value, pairs, runs, config, codeOrder, answers, 0, 0, 0, files1, files2);
    }
  }

  /** Without a `gst` program the batch fails before any pair is started, and no file changes. */
  lemma NoGstNoPairs(pairs: seq<FilePair>, runs: seq<ProcessRun>, config: TranslationConfig, codeOrder: seq<string>,
                     answers: seq<bool>, files: map<string, seq<Caption>>)
    requires |pairs| == |runs|
    ensures var r := Batch(None, pairs, runs, config, codeOrder, answers, files);
      r.Returned? && !r.value.allSucceeded && r.value.started == 0 && r.value.files == files
  {
  }

  /**
   * An empty batch with `gst` available: it succeeds when the event is not
   * set, and raises `UnboundLocalError` when it is.
   */
  lemma EmptyBatch(gst: string, runs: seq<ProcessRun>, config: TranslationConfig, codeOrder: seq<string>,
                   answers: seq<bool>, files: map<string, seq<Caption>>)
    requires runs == []
    ensures var r := Batch(Some(gst), [], runs, config, codeOrder, answers, files);
      && (Answer(answers, 0) ==> r == Raised("UnboundLocalError"))
      && (!Answer(answers, 0) ==> r == Returned(BatchResult(true, 0, 0, files)))
  {
  }
}
