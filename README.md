# Gemini SRT Translator GUI — a verified model of its rules

Gemini SRT Translator GUI is a desktop front end for the `gst translate`
command-line subtitle translator. The user drops subtitle and video files.
The window pairs each subtitle with a video and guesses whether the files
are TV episodes. It can look the title up on TMDB and keeps its settings in
a JSON file. For each ticked pair it then runs `gst translate`, streams the
tool's output into a log and stamps an attribution caption into the
translated `.srt` file.

This project models those rules in Dafny and proves what they promise:

- **Common**, **Text** (`common.dfy`, `text.dfy`): `Option`, a Python call's
  outcome (`Returned` or `Raised`), and ASCII models of the `str` and
  `pathlib` operations the program uses.
- **CliCommand** (`cli_command.dfy`): the argument vector of
  `_build_gst_command`. The vector is specified by a small parser for the
  tool's options (`ParseCommand`) whose inverse is `PrintArgs`. The builder
  is proved to emit exactly the options of `ExpectedArgs`.
- **CliNames** (`cli_names.dfy`): the language-name to code mapper, the
  removal of language codes from a file stem, and the output file name.
- **CliOutput** (`cli_output.dfy`): the filter each streamed output line
  goes through (right-strip, ANSI escape removal, blank lines dropped).
- **CliAttribution** (`cli_attribution.dfy`): the timing of the attribution
  caption, its insertion, and the sort and renumbering of the captions.
- **CliBatch** (`cli_batch.dfy`): one `gst` run, one pair, and the batch
  loop with its success count and cancellation checks.
- **MainWindowDetect**, **MainWindowMatch**, **MainWindowTree**
  (`main_detect.dfy`, `main_match.dfy`, `main_tree.dfy`): the episode
  detection, the subtitle-to-video pairing, and the rows of the pair list
  with their tick boxes.
- **Tmdb** (`tmdb.dfy`): how the TMDB key travels, the search request, the
  mapping of response records to results, and the best-match choice.
- **Config** (`config.dfy`): the `ConfigManager` settings store.

Inputs that the program gets from the outside world are parameters of the
model:

- The child process is a record of what the runner observes of it: whether
  it started, its output lines, whether the final wait timed out, and its
  exit code.
- The cancel event is the sequence of answers its `is_set()` gives, in the
  order the runner asks.
- An HTTP response is the list of records under `results`, or `None` when
  the request failed.
- A settings file is the dictionary decoded from it, or `None`.
- Subtitle files are a map from path to parsed captions.
- The iteration order of the runner's set of language codes is a sequence
  `codeOrder`.

Where the code departs from what its names and docstrings say, the model
follows the code as written:

- `get_tmdb_id_for_file` passes the year in the `is_series` position of
  `find_best_match`. A file whose name yields a year is therefore searched
  as a TV series, without a year filter (`Tmdb.YearMeansSeries`).
- `get_processing_config` never returns the TV-series switch or the
  attribution switch. The window's reads of those two keys always take
  their fallbacks (`Config.ProcessingConfigOmitsSwitches`).
- The default model `gemini-2.5-flash` is not among the models
  `validate_config` accepts (`Config.DefaultsGiveTwoIssues`).
- A cancelled empty batch raises `UnboundLocalError`. It is modelled as
  written (`CliBatch.EmptyBatch`).

One rule is modelled in its corrected form instead, as the Findings table
explains. After a successful run, `_run_single_translation` picks the file
for the attribution caption by testing the subtitle for truthiness. The
command builder instead skips the "No match" placeholder. The pair
translation of the model (`CliBatch.PairTranslation` and every member built
on it) puts the caption into the command's `-o` file. The code as written is
`CliBatch.FilesAfterAttributionAsWritten`. The two agree unless the subtitle
is a non-empty placeholder (`CliBatch.AttributionFilesAgree`,
`CliBatch.UncancelledPairAsWritten`).

## Model

| member | source | states |
|---|---|---|
| CliCommand.BuildGstCommand | gst_gui/utils/cli_runner.py:300-397 | It raises `TypeError` exactly when there is neither a usable subtitle nor any video. Otherwise the vector starts with the program and `translate`, and parsing the rest gives exactly `ExpectedArgs`: each option at most once, in the order -i, -o, -l, -k, --model, --batch-size, --description, -v, --extract-audio. The vector is word for word the program, `translate` and the printed `ExpectedArgs`. |
| CliCommand.ExpectedSegments | gst_gui/utils/cli_runner.py:326-395 | The words of each option. `-o` with the output path, `-l` and `--model` are always present. `-k` appears only for a non-blank key and carries the stripped key. `--batch-size 100` appears exactly when the model contains "2.0". `-i`/`-v` appear for usable paths. `--extract-audio` follows `-v` exactly when audio extraction is on. |
| CliCommand.ParsePrint | gst_gui/utils/cli_runner.py:300-397 | Printing an option set and parsing it back gives the same option set, so no two option sets print alike. |
| CliCommand.PrintParse | gst_gui/utils/cli_runner.py:300-397 | The converse: a command line that parses is, word for word, the program, `translate` and the printed options it parses to. |
| CliCommand.PrintParseFrom | gst_gui/utils/cli_runner.py:300-397 | The converse from a given rank on: whatever the parser accepts there is exactly the printed form of its result from that rank, and the options below that rank are kept. |
| CliCommand.ParseDeterminesCommand | gst_gui/utils/cli_runner.py:300-397 | The parser pins a command line down completely: two command lines that parse to the same invocation are equal. |
| CliCommand.ParsePrintFrom | gst_gui/utils/cli_runner.py:300-397 | The round trip for the options from a given rank on: parsing what was printed, on top of the options below that rank, restores all of them. |
| CliCommand.AssembledCommandParses | gst_gui/utils/cli_runner.py:302-395 | The vector built by the subtitle, output-and-model, description and video steps starts with the program and `translate`, parses back to `ExpectedArgs`, and is exactly the printed form of `ExpectedArgs`. |
| CliCommand.SegmentsParse | gst_gui/utils/cli_runner.py:300-397 | Options emitted segment by segment in rank order parse back to the option set they came from. |
| CliCommand.AddOutputAndModel | gst_gui/utils/cli_runner.py:323-351 | The step appends `-o` with the output path, then `-l`, then `-k` with the stripped key only when it is not blank, then `--model`, then `--batch-size 100` exactly when the model contains "2.0". |
| CliCommand.AddDescription | gst_gui/utils/cli_runner.py:353-379 | The description step appends exactly the `--description` words of the four-way choice. |
| CliCommand.AddVideo | gst_gui/utils/cli_runner.py:382-395 | The video step appends `-v` for a usable video, and `--extract-audio` after it only when extraction is on. |
| CliCommand.DescriptionCases | gst_gui/utils/cli_runner.py:353-379 | A description is given exactly when the stripped overview or the stripped title is non-empty. It ends with the overview whenever there is one, names the title as " called <title>." whenever there is one, and starts with the style prompt when both are given. |
| CliCommand.OutputSource | gst_gui/utils/cli_runner.py:311-324 | The output is named after the subtitle when it is usable, else after the video. There is no source exactly when the subtitle is unusable and the video is absent. |
| CliCommand.SentinelIsSuffixTest | gst_gui/utils/cli_runner.py:303-308 | The placeholder test is a suffix test: "No match" and "films/Movie.None" are placeholders, "None/movie.srt" is not. |
| CliCommand.AttributionTarget | gst_gui/utils/cli_runner.py:149-155 | The corrected attribution target exists exactly when the command could be built. |
| CliCommand.AttributionTargetIsCommandOutput | gst_gui/utils/cli_runner.py:149-155 | The corrected attribution target is the file the command names after `-o`. |
| CliCommand.AttributionTargetsAgree | gst_gui/utils/cli_runner.py:149-155 | The as-written and the corrected targets agree unless the subtitle is a non-empty placeholder. |
| CliCommand.PlaceholderSubtitleMissesOutput | gst_gui/utils/cli_runner.py:152-155 | For the placeholder subtitle "No match" and the video "movie.mkv", the tool writes "movie.<code>.srt", but the code as written looks for "No match.<code>.srt". |
| CliNames.LanguageCode | gst_gui/utils/cli_runner.py:185-238 | The code derived from any language name, known or not, has one or two characters. |
| CliNames.Lookup | gst_gui/utils/cli_runner.py:225-226 | A dict lookup finds a value exactly when some entry has the key, and the value comes from an entry with that key. |
| CliNames.NamesAreDistinct | gst_gui/utils/cli_runner.py:187-219 | The language table has no repeated name, so it behaves as the dict it is in the source. |
| CliNames.KnownNameMapsToCode | gst_gui/utils/cli_runner.py:222-226 | A known language name, in any letter case and with surrounding blanks, maps to its own code. |
| CliNames.TwoLetterInputIsItsOwnCode | gst_gui/utils/cli_runner.py:229-230 | A two-letter alphabetic input is returned lower-cased, as its own code. |
| CliNames.PartialMatchTakesFirstRelated | gst_gui/utils/cli_runner.py:233-235 | Any other input takes the code of the first table name, in table order, that is a prefix of it or that it is a prefix of. |
| CliNames.FirstRelated | gst_gui/utils/cli_runner.py:233-235 | The index found is prefix-related to the input, and no earlier entry is. |
| CliNames.BlankLanguageIsPolish | gst_gui/utils/cli_runner.py:222-238 | A blank language yields "pl": every name starts with the empty string, so the "en" fallback is never reached. |
| CliNames.CleanedStem | gst_gui/utils/cli_runner.py:240-298 | The cleaned stem is never longer than the stem, and it is empty only when the stem is. |
| CliNames.CleanFilenameFromLanguageCodes | gst_gui/utils/cli_runner.py:240-298 | The result is never longer than the stem. It is the stem itself when removal and tidying leave nothing. Otherwise it is the tidied removal result, with no run of '.', '-' or '_' and none of '.', '-', '_' or space at either end. |
| CliNames.TidyIsClean | gst_gui/utils/cli_runner.py:293-296 | Tidied text has no two adjacent '.', '-' or '_', and none of '.', '-', '_' or space at either end. |
| CliNames.CollapseNoRun | gst_gui/utils/cli_runner.py:293-295 | Collapsing runs of a separator leaves no two of it adjacent. |
| CliNames.CollapseKeepsNoRun | gst_gui/utils/cli_runner.py:293-295 | Collapsing one separator does not create runs of another. |
| CliNames.TrailingTokenRemoved | gst_gui/utils/cli_runner.py:283-290 | A final ".token" equal to the code up to letter case is removed, and nothing before it is. |
| CliNames.LeadingSub | gst_gui/utils/cli_runner.py:283-290 | The leading pattern removes at most one prefix "<code><separator>". |
| CliNames.ApplyPatternsInOrder | gst_gui/utils/cli_runner.py:281-290 | For one code the three patterns are applied in their listed order. |
| CliNames.NoSeparatorUntouched | gst_gui/utils/cli_runner.py:281-290 | A stem without '.', '-' or '_' is left unchanged by the removal, whatever the codes. |
| CliNames.CodeMatchIgnoresCase | gst_gui/utils/cli_runner.py:240-298 | Matching ignores letter case and only whole tokens match: with the codes "en" and "eng", "Movie.ENG" becomes "Movie". |
| CliNames.MovieEngCleaned | gst_gui/utils/cli_runner.py:243-298 | With the program's own set of codes, in any iteration order, "Movie.ENG" is cleaned to "Movie". |
| CliNames.RemoveMovieEng | gst_gui/utils/cli_runner.py:277-290 | Removing codes that include "eng" and otherwise read neither as "eng" nor as "movie" leaves "Movie" of "Movie.ENG", whatever their order. |
| CliNames.OtherCodeKeepsMovieEng | gst_gui/utils/cli_runner.py:280-290 | A code that reads neither as "eng" nor as "movie", ignoring case, matches none of the three patterns in "Movie.ENG". |
| CliNames.LanguageCodeSpellings | gst_gui/utils/cli_runner.py:243-275 | Of the program's codes, only "eng" reads as "eng" or as "movie" ignoring case. |
| CliNames.ShortCodeKeepsLongerToken | gst_gui/utils/cli_runner.py:283-290 | The code "en" leaves "Movie.ENG" alone. |
| CliNames.EmptyCleanKeepsStem | gst_gui/utils/cli_runner.py:296-298 | When nothing is left after removal, the original stem is kept ("en." stays "en."). |
| CliNames.RemovalOrderMatters | gst_gui/utils/cli_runner.py:243-290 | The set's iteration order changes the result: "no.en" becomes "en" or "no". |
| CliNames.OutputFilePath | gst_gui/utils/cli_runner.py:173-183 | The output file lies in the directory of the input file: the path starts with the input's directory part. |
| CliNames.OutputPathSuffix | gst_gui/utils/cli_runner.py:173-183 | Whatever the input, the output path ends in ".<language code>.srt". |
| CliNames.DottedOutput | gst_gui/utils/cli_runner.py:173-183 | A plain file "<stem>.<ext>" in the current directory is translated to "<stem>.<code>.srt". |
| CliNames.UndottedOutput | gst_gui/utils/cli_runner.py:173-183 | A plain file without a suffix is translated to "<name>.<code>.srt". |
| CliNames.CleanPlain | gst_gui/utils/cli_runner.py:240-298 | A stem without '.', '-' or '_', and without a space at either end, survives cleaning whatever the codes. |
| CliOutput.ParameterEndSpec | gst_gui/utils/cli_runner.py:23 | The run of control-sequence parameter bytes is maximal: all of them are parameter bytes, and the byte after it is not. |
| CliOutput.IntermediateEndSpec | gst_gui/utils/cli_runner.py:23 | The run of intermediate bytes is maximal in the same way. |
| CliOutput.StripAnsi | gst_gui/utils/cli_runner.py:23 | Removing the escape sequences never makes a line longer. |
| CliOutput.FilterLine | gst_gui/utils/cli_runner.py:441-443 | The text logged for a line read (right-stripped, then escapes removed) is never longer than the line. |
| CliOutput.StripAnsiRemovesOnly | gst_gui/utils/cli_runner.py:441-443 | Escape removal only deletes characters: the result is no longer, and uses no character more often than the input. |
| CliOutput.StripFromPlain | gst_gui/utils/cli_runner.py:441-443 | Text without ESC passes through the removal unchanged. |
| CliOutput.PlainLineUnchanged | gst_gui/utils/cli_runner.py:441-445 | A line without ESC is only right-stripped. |
| CliOutput.StripFromShift | gst_gui/utils/cli_runner.py:23 | A match looks only forward: removal in the text after some prefix is the removal in that text alone. |
| CliOutput.PlainPrefixKept | gst_gui/utils/cli_runner.py:441-443 | A prefix without ESC is kept as it is, and the rest is filtered on its own. |
| CliOutput.ColourCodeRemoved | gst_gui/utils/cli_runner.py:23 | An "ESC [ digits m" colour code is removed as a whole. |
| CliOutput.ColouredWordStripped | gst_gui/utils/cli_runner.py:441-445 | "\x1b[31mHello\x1b[0m" is logged as "Hello". |
| CliOutput.OnePassCanLeaveEscape | gst_gui/utils/cli_runner.py:443 | A single pass can leave an escape behind: "ESC ESC @ @" gives "ESC @", and a second pass would remove that. |
| CliOutput.LoggedLinesAppend | gst_gui/utils/cli_runner.py:437-445 | Logging keeps the order of the lines and treats each line on its own. |
| CliOutput.LoggedLinesStep | gst_gui/utils/cli_runner.py:441-445 | One more line read adds its filtered form at the end of the log, unless it filters to nothing. |
| CliOutput.LoggedLinesAreFiltered | gst_gui/utils/cli_runner.py:437-445 | Every logged line is the filtered form of a line that was read, and is not empty. |
| CliOutput.LoggedLineOf | gst_gui/utils/cli_runner.py:437-445 | Every line whose filtered form is not empty is logged. |
| CliAttribution.InfoCaption | gst_gui/utils/cli_runner.py:560-581 | The caption carries the info text. It ends at the first caption's start but no later than five seconds (five seconds when there are no captions). It starts at one second exactly when it ends at five seconds, and at zero otherwise. For a first caption that does not start before zero, start ≤ end. |
| CliAttribution.SortByStart | gst_gui/utils/cli_runner.py:586 | Sorting keeps the length and is a permutation of the captions. |
| CliAttribution.SortIsSorted | gst_gui/utils/cli_runner.py:586 | The sorted captions are in start order. |
| CliAttribution.SortOfSorted | gst_gui/utils/cli_runner.py:586 | Sorting captions already in start order changes nothing. |
| CliAttribution.InsertKeepsSorted | gst_gui/utils/cli_runner.py:586 | Inserting a caption into a list in start order keeps it in start order. |
| CliAttribution.Reindex | gst_gui/utils/cli_runner.py:586 | Renumbering changes only the numbers, which count up from the first one in list order. |
| CliAttribution.WithTranslatorInfoShape | gst_gui/utils/cli_runner.py:583-586 | Whatever the file held, the result is in start order, numbered 1, 2, …, and holds the attribution and every old caption, renumbered, exactly once. |
| CliAttribution.InfoComesFirst | gst_gui/utils/cli_runner.py:560-586 | For a file already in start order whose first caption does not start before zero, the attribution becomes caption 1 and the old captions follow in their order, numbered from 2. |
| CliAttribution.SubtitleFiles.AddTranslatorInfo | gst_gui/utils/cli_runner.py:545-590 | A missing file is left alone. Otherwise that file, and only that file, now holds the captions with the attribution inserted, sorted and renumbered. |
| CliBatch.FirstCancel | gst_gui/utils/cli_runner.py:423-434 | The first cancel check in a range that finds the event set: every earlier check found it clear, and none is found exactly when all checks find it clear. |
| CliBatch.ExecutionOf | gst_gui/utils/cli_runner.py:399-474 | A run only moves the cancel-check count forward, logs at most one entry per line read, and never succeeds when the process cannot start. |
| CliBatch.ExecuteCommand | gst_gui/utils/cli_runner.py:399-474 | The streaming loop computes the specified execution: the event is checked before each read and at the end of output, and once more after a wait that times out. A set event found while streaming fails the run. After a timed-out wait, a set event terminates the process, and the run succeeds only if the termination code is 0. Otherwise the run succeeds exactly on exit code 0, and a process that cannot start fails. |
| CliBatch.StreamOutput | gst_gui/utils/cli_runner.py:423-449 | The loop stops at the first cancel check that answers set, counting one check before each line and one at the end of output. It logs the filtered lines read before that check, or all of them when no check answers set. |
| CliBatch.ExecutionLogsPrefix | gst_gui/utils/cli_runner.py:423-469 | Whatever the answers, a run logs the filtered lines of a prefix of its output. It succeeds only when it started and none of the checks made while reading found the event set. |
| CliBatch.UncancelledExecution | gst_gui/utils/cli_runner.py:423-469 | Without a cancel, the whole output is logged and the run succeeds exactly when it starts and exits with 0. One check is made per line read, one at the end of output, and one more after a timed-out wait. |
| CliBatch.PairCommand | gst_gui/utils/cli_runner.py:139-143 | The command for a pair raises `TypeError` exactly when neither file can name the output. It is never empty, so the "could not build command" branch is dead. It names as `-o` the corrected attribution target. |
| CliBatch.PairTranslation | gst_gui/utils/cli_runner.py:109-171 | A pair raises only `TypeError`, and a pair that returns has made at least one more cancel check. The attribution goes to the corrected target, the command's `-o` file (see "## Findings"). |
| CliBatch.RunSingleTranslation | gst_gui/utils/cli_runner.py:109-171 | The method computes the specified pair translation on the store of subtitle files. A set event before the start skips the pair. A pair that cannot name its output raises. The attribution is added only after a successful run that was not cancelled meanwhile, and only when the configuration asks for it. It goes to the corrected target, the command's `-o` file. |
| CliBatch.RunStartedPair | gst_gui/utils/cli_runner.py:145-171 | Once the command is built, the pair succeeds exactly when the run does. A successful run costs one more cancel check. The files change only after a successful run that was not cancelled meanwhile, and then by the attribution step alone, on the corrected target. |
| CliBatch.AttachTranslatorInfo | gst_gui/utils/cli_runner.py:149-168 | The attribution step changes the files exactly as specified: the caption "# Translated by <model> #" goes to the corrected target, with "Unknown Model" when no model is set. |
| CliBatch.AttributionFilesAgree | gst_gui/utils/cli_runner.py:149-168 | Unless the subtitle is a non-empty placeholder, the corrected attribution step leaves the same files as the code as written. |
| CliBatch.PlaceholderAttributionAsWritten | gst_gui/utils/cli_runner.py:149-168 | For a non-empty placeholder subtitle the code as written names the caption's file after the placeholder, and changes nothing when no such file exists. |
| CliBatch.UncancelledPair | gst_gui/utils/cli_runner.py:109-171 | Without a cancel, a pair whose command can be built succeeds exactly when its run exits cleanly, and the attribution (on the corrected target) is added only then. |
| CliBatch.UncancelledPairAsWritten | gst_gui/utils/cli_runner.py:109-171 | Without a cancel, and unless the subtitle is a non-empty placeholder, a pair's files are those the code as written leaves: its attribution exactly when the run exits cleanly. |
| CliBatch.PairRaises | gst_gui/utils/cli_runner.py:109-171 | A pair raises only `TypeError`, and only when neither file can name the output. |
| CliBatch.PairIgnoresFiles | gst_gui/utils/cli_runner.py:149-171 | The subtitle files never decide a pair's success: attribution errors do not change it. |
| CliBatch.BatchFrom | gst_gui/utils/cli_runner.py:84-107 | The loop from pair `j` on starts between `j` and all pairs, counts at most one success per pair it starts, and reports the batch as successful only when its success count reaches the number of pairs. |
| CliBatch.RunTranslationBatch | gst_gui/utils/cli_runner.py:62-107 | The batch loop computes the specified batch result, and the store ends up holding the result's files (with the attribution on the corrected targets). |
| CliBatch.BatchTurn | gst_gui/utils/cli_runner.py:85-98 | One turn of the loop (the cancel check, then the pair) raises, stops the loop, or moves to the next pair as the specification says. |
| CliBatch.NoGstNoPairs | gst_gui/utils/cli_runner.py:73-76 | Without a `gst` program the batch fails before any pair is started, and no file changes. |
| CliBatch.BatchFromDone | gst_gui/utils/cli_runner.py:85-88 | No pair is started once the pairs run out or the event is found set at the loop head. |
| CliBatch.BatchFromStop | gst_gui/utils/cli_runner.py:93-96 | A pair that fails while the event is set ends the loop. |
| CliBatch.BatchCounts | gst_gui/utils/cli_runner.py:62-107 | The batch never counts more successes than pairs started, nor starts more pairs than it has. It succeeds only when every pair was started and succeeded. Conversely, when `gst` is found, every pair succeeded and the event is never set, it succeeds. |
| CliBatch.BatchFromAllSucceeded | gst_gui/utils/cli_runner.py:84-107 | When the event is never set from a given check on, a batch in which every pair succeeded returns True. |
| CliBatch.BatchRaises | gst_gui/utils/cli_runner.py:62-107 | The batch raises only `TypeError`, from a pair neither of whose files can name the output, or `UnboundLocalError`, when the batch is empty and the event is set. |
| CliBatch.UncancelledBatch | gst_gui/utils/cli_runner.py:62-107 | Without a cancel, every pair is started and the successes are exactly the runs that exit cleanly. The batch succeeds exactly when all of them do, so an empty uncancelled batch succeeds. |
| CliBatch.SuccessesAll | gst_gui/utils/cli_runner.py:104-107 | The success count equals the number of pairs exactly when every run exits cleanly. |
| CliBatch.BatchIgnoresFiles | gst_gui/utils/cli_runner.py:62-107 | The subtitle files never decide how the batch ends, how many pairs it starts or how many succeed. |
| CliBatch.EmptyBatch | gst_gui/utils/cli_runner.py:100-107 | An empty batch with `gst` available succeeds when the event is not set, and raises `UnboundLocalError` when it is. |
| MainWindowDetect.DetectTvSeriesPattern | gst_gui/gui/main_window.py:889-913 | No name shorter than three characters (the shortest pattern, `1x2`) is taken for an episode. |
| MainWindowDetect.PatternHasDigit | gst_gui/gui/main_window.py:901-906 | Every episode pattern needs a digit at or after where it matches. |
| MainWindowDetect.NoDigitNoSeries | gst_gui/gui/main_window.py:889-913 | A name without a digit is never taken for an episode. |
| MainWindowDetect.DetectIgnoresCase | gst_gui/gui/main_window.py:894-898 | Detection does not depend on letter case. |
| MainWindowDetect.DetectInContext | gst_gui/gui/main_window.py:908-913 | A detected episode name stays detected whatever text surrounds it, because the search looks anywhere. |
| MainWindowDetect.EpisodeCodeDetected | gst_gui/gui/main_window.py:902 | "S01E01" is an episode name. |
| MainWindowDetect.SeasonDetected | gst_gui/gui/main_window.py:903 | "season 2" is an episode name. |
| MainWindowDetect.EpisodeWordDetected | gst_gui/gui/main_window.py:904 | "Episode 3" is an episode name. |
| MainWindowDetect.CrossDetected | gst_gui/gui/main_window.py:905 | "1x02" is an episode name. |
| MainWindowDetect.AutoDetectAndSetTvSeries | gst_gui/gui/main_window.py:915-949 | The TV-series switch ends up on exactly when some item's name looks like an episode. |
| MainWindowDetect.ShouldAutoFetchTmdb | gst_gui/gui/main_window.py:1051-1068 | A fetch starts exactly when auto-fetch is on, the TMDB key has a non-blank character, and the TMDB id is blank. |
| MainWindowMatch.VideoStemsKeys | gst_gui/gui/main_window.py:1153 | The video dictionary has a key exactly when some video has that key. |
| MainWindowMatch.VideoStemsLast | gst_gui/gui/main_window.py:1153 | A key maps to the last video that has it. |
| MainWindowMatch.VideoStemsValues | gst_gui/gui/main_window.py:1153 | Every key maps to a video that has that key. |
| MainWindowMatch.CommonPrefixLengthSpec | gst_gui/gui/main_window.py:1170 | The common prefix is shared, and the two names differ right after it unless one of them ends there. |
| MainWindowMatch.BeatsTrans | gst_gui/gui/main_window.py:1171-1173 | The integer comparison of ratios is transitive, as the float comparison is. |
| MainWindowMatch.BestKeySpec | gst_gui/gui/main_window.py:1165-1177 | For a subtitle key that is not a video key, the scan finds nothing exactly when no key is more than 70% similar. Otherwise it finds the first key with the greatest similarity. |
| MainWindowMatch.ExactMatchWins | gst_gui/gui/main_window.py:1161-1162 | The video with the same key wins, and it is the last video with that key. |
| MainWindowMatch.MatchForNone | gst_gui/gui/main_window.py:1165-1177 | For a subtitle key no video has, no video is found exactly when none is more than 70% similar. |
| MainWindowMatch.MatchForSome | gst_gui/gui/main_window.py:1165-1177 | A video found by partial match is more than 70% similar, and no video is more similar. |
| MainWindowMatch.MatchForIsAVideo | gst_gui/gui/main_window.py:1156-1177 | A video found for a subtitle is one of the videos. |
| MainWindowMatch.VideoMatches | gst_gui/gui/main_window.py:1148-1200 | There is an entry for every subtitle, and at most one more entry per video. |
| MainWindowMatch.VideoMatchesShape | gst_gui/gui/main_window.py:1148-1200 | One entry per subtitle in input order, then only entries without a subtitle. Every entry's status and tag agree with what it pairs, and every video named is one of the videos. |
| MainWindowMatch.EveryVideoListed | gst_gui/gui/main_window.py:1148-1200 | Every video appears in some entry, paired or on its own. |
| MainWindowMatch.VideoOnlyWhenUnmatched | gst_gui/gui/main_window.py:1190-1198 | A video gets an entry of its own exactly when no subtitle was paired with it. |
| MainWindowMatch.VideoOnlyEntriesShape | gst_gui/gui/main_window.py:1190-1198 | The entries without a subtitle list each unmatched video, in input order, and nothing else. |
| MainWindowMatch.TagsFollowStatus | gst_gui/gui/main_window.py:1179-1197 | The tag of every entry is the one the tree derives from its status. |
| MainWindowMatch.FindVideoMatches | gst_gui/gui/main_window.py:1148-1200 | The loops compute the specified match list. |
| MainWindowMatch.BuildVideoStems | gst_gui/gui/main_window.py:1153 | The dictionary is built one video at a time into the specified, well-formed dictionary. |
| MainWindowMatch.PartialMatch | gst_gui/gui/main_window.py:1165-1177 | The scan that keeps the best candidate above 70% returns the specified match. |
| MainWindowMatch.MatchSubtitle | gst_gui/gui/main_window.py:1156-1187 | The body of the subtitle loop computes the specified entry. |
| MainWindowMatch.MatchSubtitles | gst_gui/gui/main_window.py:1156-1187 | The subtitle loop makes one specified entry per subtitle, in order. |
| MainWindowMatch.AppendVideoOnly | gst_gui/gui/main_window.py:1190-1198 | The loop appends exactly the entries for the videos not matched. |
| MainWindowTree.MatchStatusesGiveTheirTags | gst_gui/gui/main_window.py:1135-1146 | The tag mapping inverts the statuses the matcher sets: matched, no_match, video_only. |
| MainWindowTree.NoSubtitlesIsNoNoMatch | gst_gui/gui/main_window.py:1135-1146 | "No subtitles" does not contain "No match", so it is not mistaken for it. |
| MainWindowTree.UnwrapSkipped | gst_gui/gui/main_window.py:1110-1125 | Wrapping a status as "⏸️ Skipped (…)" and cutting the wrapper off again gives the status back. |
| MainWindowTree.Toggled | gst_gui/gui/main_window.py:1094-1133 | Toggling flips the tick. Unticking tags the row "unchecked"; ticking recomputes the tag from the status. Only the status value may change. Text with neither box gets the ticked box and a space in front, and nothing else changes. |
| MainWindowTree.UncheckThenCheck | gst_gui/gui/main_window.py:1099-1129 | Unticking a row "☑️ X", then ticking it, gives back its text and values. |
| MainWindowTree.CheckThenUncheck | gst_gui/gui/main_window.py:1099-1129 | Ticking an unticked row with a wrapped status, then unticking it, gives back its text and values. |
| MainWindowTree.UncheckNeverWrapsTwice | gst_gui/gui/main_window.py:1107-1110 | Unticking never wraps a status that already shows the pause sign. |
| MainWindowTree.UncheckWithoutSpaceKeepsSelector | gst_gui/gui/main_window.py:1099-1104 | A row ticked without the space loses only U+2611 when unticked: the variation selector stays behind the empty box. |
| MainWindowTree.PairTree.ToggleItemCheckbox | gst_gui/gui/main_window.py:1094-1133 | The row at the item is replaced by its toggled form, and no other row changes. |
| MainWindowTree.NoneAsMissing | gst_gui/gui/main_window.py:1264-1266 | A value reads as no file exactly when it is "None". Any other value, "No match" included, passes through. |
| MainWindowTree.SelectedPairs | gst_gui/gui/main_window.py:1255-1273 | The selection holds at most one pair per row, and the only exception it raises is `IndexError`. |
| MainWindowTree.PickedRows | gst_gui/gui/main_window.py:1259-1263 | Only ticked rows with at least two values are picked. |
| MainWindowTree.SelectedPairsArePicked | gst_gui/gui/main_window.py:1255-1273 | The selection succeeds exactly when every picked row has a folder value, and it raises only `IndexError`. On success it holds one entry per picked row, in tree order. |
| MainWindowTree.PairTree.GetSelectedPairs | gst_gui/gui/main_window.py:1255-1273 | The loop over the rows computes the specified selection. |
| MainWindowTree.SelectedPrefixRaises | gst_gui/gui/main_window.py:1255-1273 | Once a prefix of the rows raises, the whole selection raises the same way. |
| Tmdb.ParseDecimal | gst_gui/utils/tmdb_helper.py:252-255 | `int()` reads back the decimal text of every natural number. |
| Tmdb.NoDigitNoNumber | gst_gui/utils/tmdb_helper.py:252-255 | Text without a digit never parses as an integer. |
| Tmdb.KeyInExactlyOnePlace | gst_gui/utils/tmdb_helper.py:34-47 | The key travels in exactly one place, unchanged: a bearer token in the `Authorization` header, an API key under `api_key`. The other parameters stay as they were. |
| Tmdb.TmdbHelper.PrepareRequest | gst_gui/utils/tmdb_helper.py:34-47 | The caller's parameters gain `api_key` for an API key and stay as they were for a bearer token. The headers carry the bearer token. |
| Tmdb.TmdbHelper.constructor | gst_gui/utils/tmdb_helper.py:27-32 | The key is classified once, as a bearer token exactly when it is non-empty, has exactly two dots and is longer than 100 characters. |
| Tmdb.YearFilter | gst_gui/utils/tmdb_helper.py:80-100 | A year filter exists exactly when the year parses as an integer in 1900..2030, and it carries that integer. |
| Tmdb.SearchRequestShape | gst_gui/utils/tmdb_helper.py:62-106 | Nothing is sent without a key or with a blank title. Otherwise the query is the stripped title, in English, without adult titles, sent to the TV or the movie endpoint. |
| Tmdb.YearFilterPlacement | gst_gui/utils/tmdb_helper.py:80-100 | A year filter goes under `first_air_date_year` for a series and under `year` for a movie, exactly when the year is valid. |
| Tmdb.SearchRequestCarriesKey | gst_gui/utils/tmdb_helper.py:103-110 | The search request carries the key in exactly one place. |
| Tmdb.ExtractYear | gst_gui/utils/tmdb_helper.py:266-274 | There is no year exactly when the date is empty. |
| Tmdb.ExtractYearOfDate | gst_gui/utils/tmdb_helper.py:266-274 | The year of "YYYY-MM-DD" is "YYYY". |
| Tmdb.ToResults | gst_gui/utils/tmdb_helper.py:124-155 | One result per record, in response order, each mapped as a series or as a movie. |
| Tmdb.Take | gst_gui/utils/tmdb_helper.py:124 | Python's `xs[:limit]` is a prefix of the list, of the length Python gives it, negative limits included. |
| Tmdb.SearchResultsShape | gst_gui/utils/tmdb_helper.py:49-169 | The results are the first records of the response, in order, at most `limit` of them. Nothing comes back without a key, with a blank title or when the request failed. |
| Tmdb.TmdbHelper.SearchTitle | gst_gui/utils/tmdb_helper.py:49-169 | The method sends the specified request, if any, and returns the specified results. |
| Tmdb.TmdbHelper.ProcessResults | gst_gui/utils/tmdb_helper.py:124-157 | The loop over the records returns their results in order. |
| Tmdb.ScanStops | gst_gui/utils/tmdb_helper.py:251-259 | The year scan stops at the first result it cannot pass over: a match of the year, or a year that is not a number. |
| Tmdb.BestMatch | gst_gui/utils/tmdb_helper.py:233-264 | There is a best match exactly when there are results, and it is one of them. |
| Tmdb.BestMatchIsAResult | gst_gui/utils/tmdb_helper.py:233-264 | There is no best match exactly when there are no results; otherwise it is one of the results. |
| Tmdb.NoYearFirstResult | gst_gui/utils/tmdb_helper.py:262-264 | Without a numeric year the first result is the best. |
| Tmdb.FirstYearMatchWins | gst_gui/utils/tmdb_helper.py:251-259 | The first result whose year equals the requested one is the best, when the scan gets there. |
| Tmdb.NonNumericYearAborts | gst_gui/utils/tmdb_helper.py:251-264 | A non-numeric result year met before any match ends the scan, and the first result is taken. |
| Tmdb.ChosenForYear | gst_gui/utils/tmdb_helper.py:251-259 | A result chosen for its year is the first of that year, and every result before it has a numeric year or none. |
| Tmdb.TmdbHelper.FindBestMatch | gst_gui/utils/tmdb_helper.py:233-264 | The method searches with a limit of 10 and returns the specified best match. |
| Tmdb.TmdbHelper.ScanForYear | gst_gui/utils/tmdb_helper.py:251-259 | The year loop computes the specified scan. It stops at the first result whose year equals the target, and is aborted by the first year that is not a number. |
| Tmdb.YearMeansSeries | gst_gui/utils/tmdb_helper.py:348 | A file whose name yields a year is searched as a TV series, without a year filter. |
| Tmdb.NoYearMeansMovie | gst_gui/utils/tmdb_helper.py:348 | A file whose name yields no year is searched as a movie, without a year filter. |
| Tmdb.FileTakesFirstResult | gst_gui/utils/tmdb_helper.py:348-353 | The result found for a file is always the first record of the response, and the id returned is that record's id. |
| Tmdb.GetTmdbIdForFile | gst_gui/utils/tmdb_helper.py:309-353 | The method returns the specified lookup. Nothing is found without a non-blank key, for an empty or "Unknown Movie" title, or when the key is refused. |
| Config.Merged | gst_gui/gui/config_manager.py:76 | Every default key is present, loaded keys win, and every other key has its default value. |
| Config.LoadedSpec | gst_gui/gui/config_manager.py:69-81 | After a load every default key is present and keys from the file win. A missing or unreadable file gives exactly the defaults. |
| Config.Get | gst_gui/gui/config_manager.py:93-95 | `get` returns the stored value, or the given default for an absent key. |
| Config.SetChangesOnlyItsKey | gst_gui/gui/config_manager.py:97-99 | `set` changes what its key reads and nothing else. |
| Config.UpdateOverwritesGivenKeys | gst_gui/gui/config_manager.py:101-103 | `update` overwrites exactly the keys it is given. |
| Config.ApiConfig | gst_gui/gui/config_manager.py:105-111 | The API group has exactly the keys gemini_api_key, model and tmdb_api_key. |
| Config.UiConfig | gst_gui/gui/config_manager.py:113-118 | The UI group has exactly the keys api_expanded and settings_expanded. |
| Config.ProcessingConfig | gst_gui/gui/config_manager.py:120-128 | The processing group has exactly five keys: language, extract_audio, auto_fetch_tmdb, language_code and tmdb_id. |
| Config.ProcessingConfigOmitsSwitches | gst_gui/gui/config_manager.py:120-128 | The processing group never carries is_tv_series or add_translator_info, so a read of either always gets its fallback. |
| Config.HasText | gst_gui/gui/config_manager.py:130-140 | The presence check raises `AttributeError` exactly when the setting is not text, and an absent key is not present. |
| Config.HasTextSpec | gst_gui/gui/config_manager.py:130-140 | A text setting is present exactly when stripping it leaves something. |
| Config.Validation | gst_gui/gui/config_manager.py:155-171 | Validation reports at most three issues, and none of them is an empty message. |
| Config.ValidationSpec | gst_gui/gui/config_manager.py:155-171 | The issues come in this order: the missing Gemini key, the invalid model, the unset language, each exactly when it applies. Validation raises only on a key or a language that is not text. |
| Config.DefaultsGiveTwoIssues | gst_gui/gui/config_manager.py:19-31 | The defaults fail validation twice: no Gemini key, and the default model "gemini-2.5-flash", which is not in the valid list. |
| Config.ConfigSummarySpec | gst_gui/gui/config_manager.py:142-153 | The summary reports the three presence checks, and fails only when one of them does. |
| Config.ConfigManager.constructor | gst_gui/gui/config_manager.py:14-33 | A new store holds the loaded settings and remembers its file. |
| Config.ConfigManager.LoadConfig | gst_gui/gui/config_manager.py:69-81 | The settings become the defaults merged with the file, or the defaults alone. |
| Config.ConfigManager.Set | gst_gui/gui/config_manager.py:97-99 | The settings change at one key only. |
| Config.ConfigManager.Update | gst_gui/gui/config_manager.py:101-103 | The settings are overwritten at the given keys only. |
| Config.ConfigManager.ResetToDefaults | gst_gui/gui/config_manager.py:173-175 | The settings become the defaults. |
| Config.ConfigManager.ImportConfig | gst_gui/gui/config_manager.py:187-197 | On success it returns True and the settings become the merge. On failure it returns False and nothing changes. |
| Config.ConfigManager.ValidateConfig | gst_gui/gui/config_manager.py:155-171 | The method computes the specified list of issues, or the exception. |

## Left out

- Paths are modelled as POSIX paths (`Text.PathName`, `Text.Stem`, `Text.Sibling`): only '/' separates directory parts. On Windows, `pathlib` and `os.path` also split at '\\'; that is not modelled.
- Process start-up details are not modelled: environment variables, `Popen` arguments, terminate, kill and their timeouts. The child process is an input record of what the runner observes.
- `UnicodeDecodeError` and other read errors inside the streaming loop are not modelled. Decoding uses `errors='replace'`, so the first cannot occur.
- Log messages, including the printed commands and counters, are not modelled.
- Threads and `threading.Event` are not modelled as concurrency. Cancellation is the sequence of `is_set()` answers.
- The `srt` library is not part of this model. Its parsing and composing are left out. `sort_and_reindex` is modelled as a stable sort by start time followed by numbering from 1. The library's own skipping of empty or badly timed captions is not modelled.
- File reads and writes are left out. The subtitle files are a map from path to captions.
- CliAttribution.SubtitleFiles.AddTranslatorInfo does not model the exceptions it catches and logs (unreadable files). Those leave the file unchanged in the source.
- Other exceptions the runner catches in the attribution step are not modelled, apart from `Path(None)` raising, which is modelled. None of them changes a pair's success.
- CliNames.CleanFilenameFromLanguageCodes takes the set's iteration order as the parameter `codeOrder`. Python's hash-dependent order is not modelled. Nothing obliges its callers to pass exactly the codes of `CliNames.LanguageCodes`; `CliNames.MovieEngCleaned` states its example for every order of exactly those codes.
- CliBatch.RunSingleTranslation puts the attribution caption into the corrected target, the command's `-o` file, not the file gst_gui/utils/cli_runner.py:152-155 opens. The two differ only when the subtitle is a non-empty placeholder (see Findings and `CliBatch.AttributionFilesAgree`).
- CliBatch.RunStartedPair ensures the files of the corrected attribution step, for the same reason.
- CliBatch.AttachTranslatorInfo stamps the corrected target: it tests the subtitle for a usable value, where gst_gui/utils/cli_runner.py:152-155 tests truthiness.
- CliBatch.FilesAfterAttribution is the corrected attribution step; CliBatch.FilesAfterAttributionAsWritten is the step as written.
- CliBatch.UncancelledPair states the files of the corrected attribution step; CliBatch.UncancelledPairAsWritten relates them to the step as written.
- CliBatch.RunTranslationBatch and the batch lemmas build on the corrected pair translation, so their files differ from the program's for pairs with a non-empty placeholder subtitle.
- `_find_gst_command`, `is_gst_available`, `run_legacy_command` and `_execute_legacy_command` are left out. They probe the filesystem and the PATH. The lookup's result is the parameter `gstCmd`.
- Unicode semantics of `\d`, `\s`, `str.isspace` and `str.lower` are not modelled. The model is ASCII.
- MainWindowMatch compares the similarity ratios by integer cross-multiplication instead of floats. That agrees with the floats for names shorter than millions of characters.
- The Tk widgets, their variables and conversions are left out, as are message boxes and image loading. The window functions take the widget values as parameters.
- `_auto_detect_and_set_tv_series` is modelled for its result only. Its log messages and the widget update are left out.
- `add_subtitle_matches_to_treeview` is left out, and with it how rows are first built. It depends on `extract_movie_info` in gst_gui/utils/file_utils.py, which is not part of this model.
- `search_title` and `find_best_match` are modelled only to the request they send and the results they return. Network errors, HTTP status and JSON decoding all become a `None` response.
- TMDB records with JSON `null` fields are not modelled. A field is either present with a value of its type or absent.
- Tmdb.ParseInt models `int()` on ASCII digits with an optional sign and surrounding whitespace. It does not model underscores between digits or non-ASCII digits.
- `test_api_key` and `get_movie_details` are network calls and are left out. Whether the key was accepted is the parameter `keyAccepted` of `GetTmdbIdForFile`.
- The title and year extraction from the file name is left out (`extract_movie_info` is not part of this model). They are parameters.
- Tmdb.TmdbHelper.PrepareRequest always receives a parameter dictionary. The `params=None` default, which makes a fresh dictionary, is not modelled.
- The configuration directory lookup (`_get_config_dir`, `_ensure_config_dir`) is left out. So are `save_config`, `export_config` and `get_config_path`, which only write files or report the path.
- Config.Value models JSON values as text, booleans, `null` and any other value. Any other value is known only by its `str()` text.
- Config.ConfigSummary takes the settings file's path as a parameter rather than computing it.
- `gst_gui/main.py` is left out: it only probes dependencies and opens the window.

## Findings

| source | as written | input that shows it | evidently intended | confidence | as-written member | corrected member |
|---|---|---|---|---|---|---|
| gst_gui/utils/cli_runner.py:152-155 | After a successful run, the attribution target is derived from the subtitle value whenever it is truthy, even when it is the "No match" placeholder that the command builder skipped. | A pair with subtitle "No match" and video "movie.mkv": the tool writes "movie.<code>.srt", but the caption is looked for in "No match.<code>.srt", which is missing, so no caption is added. | The caption goes to the file the command told the tool to write, its `-o` value. | not executed | CliCommand.PlaceholderSubtitleMissesOutput | CliCommand.AttributionTargetIsCommandOutput |
