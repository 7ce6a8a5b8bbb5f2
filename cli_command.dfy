/**
 * The argument vector the command runner (gst_gui/utils/cli_runner.py)
 * builds for the external `gst translate` tool, and the file the runner
 * later expects that tool to have written.
 *
 * The vector is specified through a small parser for the tool's options:
 * `ParseCommand` accepts each option at most once and only in the order the
 * runner emits them, and `PrintArgs` is its inverse. The builder is proved
 * to produce exactly `PrintArgs(ExpectedArgs(..))`, so every property of
 * `ExpectedArgs` is a property of the vector.
 */
module CliCommand {
  import opened Common
  import opened Text
  import opened CliNames

  /**
   * The configuration dictionary the runner receives. `None` is a key that
   * is absent from the dictionary; each accessor applies the default the
   * runner passes to `config.get`.
   */
  datatype TranslationConfig = TranslationConfig(
    language: Option<string>,
    languageCode: Option<string>,
    geminiApiKey: Option<string>,
    model: Option<string>,
    overview: Option<string>,
    movieTitle: Option<string>,
    isTvSeries: Option<bool>,
    extractAudio: Option<bool>,
    addTranslatorInfo: Option<bool>)
  {
    function Language(): string { language.GetOr("Polish") }
    function LanguageCode(): string { languageCode.GetOr("pl") }
    function GeminiApiKey(): string { geminiApiKey.GetOr("") }
    /** The model as the command builder reads it. */
    function Model(): string { model.GetOr("gemini-2.5-flash") }
    /** The model as the attribution caption reads it (a different default). */
    function ModelForAttribution(): string { model.GetOr("Unknown Model") }
    function Overview(): string { overview.GetOr("") }
    function MovieTitle(): string { movieTitle.GetOr("") }
    function IsTvSeries(): bool { isTvSeries.GetOr(false) }
    function ExtractAudio(): bool { extractAudio.GetOr(false) }
    function AddTranslatorInfo(): bool { addTranslatorInfo.GetOr(true) }
  }

  /** Python truthiness of an optional path: present and non-empty. */
  predicate Truthy(p: Option<string>) {
    p.Some? && p.value != []
  }

  /** The GUI's placeholder names: a file name ending in "No match" or "None". */
  predicate IsSentinel(path: string) {
    EndsWith(PathName(path), "No match") || EndsWith(PathName(path), "None")
  }

  /** A path the builder passes on to the tool (`-i` or `-v`). */
  predicate Usable(p: Option<string>) {
    Truthy(p) && !IsSentinel(p.value)
  }

  /**
   * The file whose stem names the output: the subtitle when usable, else the
   * video, which may be `None` (then `Path(None)` raises).
   */
  function OutputSource(subtitle: Option<string>, video: Option<string>): (r: Option<string>)
    ensures r.None? <==> !Usable(subtitle) && video.None?
  {
    if Usable(subtitle) then subtitle else video
  }

  /** The fixed formatting instructions put in front of a full description. */
  const StylePrompt: string :=
    "When translating text, follow these formatting rules:\n"
    + "            1. Line length: Keep lines to 40-50 characters when possible, breaking at natural phrase boundaries or punctuation marks.\n"
    + "            2. Dialogue formatting: When text contains dialogue between multiple speakers, format each speaker's lines separately, starting each with a dash (-).\n"
    + "            3. Spacing: Ensure proper spacing between words and after punctuation marks.\n"
    + "            4. Sentence breaks: If a sentence continues on the next line, maintain proper spacing between the end of one line and the beginning of the next.\n"
    + "            "

  function ContentType(isTvSeries: bool): string {
    if isTvSeries then "TV series" else "movie"
  }

  /** The `--description` value: full, overview only, title only, or none. */
  function Description(config: TranslationConfig): Option<string> {
    var overview := Trim(config.Overview());
    var title := Trim(config.MovieTitle());
    var kind := ContentType(config.IsTvSeries());
    if overview != [] && title != [] then
      Some(StylePrompt + " It is a " + kind + " called " + title + ". Description: " + overview)
    else if overview != [] then Some(overview)
    else if title != [] then Some("It is a " + kind + " called " + title + ".")
    else None
  }

  // ---------------------------------------------------------------------
  // The tool's options and their order
  // ---------------------------------------------------------------------

  /** The options of one `gst translate` invocation. */
  datatype GstArgs = GstArgs(
    input: Option<string>,        // -i
    output: Option<string>,       // -o
    language: Option<string>,     // -l
    apiKey: Option<string>,       // -k
    model: Option<string>,        // --model
    batchSize: Option<string>,    // --batch-size
    description: Option<string>,  // --description
    video: Option<string>,        // -v
    extractAudio: bool)           // --extract-audio

  datatype Invocation = Invocation(program: string, args: GstArgs)

  const NoArgs := GstArgs(None, None, None, None, None, None, None, None, false)

  /** The options in the order the runner emits them; the rank is the position here. */
  const Flags: seq<string> :=
    ["-i", "-o", "-l", "-k", "--model", "--batch-size", "--description", "-v", "--extract-audio"]

  /** The value option of rank `k` (the last rank, `--extract-audio`, takes no value). */
  function Field(a: GstArgs, k: nat): Option<string>
    requires k < 8
  {
    match k
    case 0 => a.input
    case 1 => a.output
    case 2 => a.language
    case 3 => a.apiKey
    case 4 => a.model
    case 5 => a.batchSize
    case 6 => a.description
    case 7 => a.video
  }

  function WithField(a: GstArgs, k: nat, v: string): (r: GstArgs)
    requires k < 8
    ensures Field(r, k) == Some(v)
    ensures forall j :: 0 <= j < 8 && j != k ==> Field(r, j) == Field(a, j)
    ensures r.extractAudio == a.extractAudio
  {
    match k
    case 0 => a.(input := Some(v))
    case 1 => a.(output := Some(v))
    case 2 => a.(language := Some(v))
    case 3 => a.(apiKey := Some(v))
    case 4 => a.(model := Some(v))
    case 5 => a.(batchSize := Some(v))
    case 6 => a.(description := Some(v))
    case 7 => a.(video := Some(v))
  }

  function RankOf(flag: string): (r: Option<nat>)
    ensures r.Some? ==> r.value < |Flags| && Flags[r.value] == flag
  {
    if flag == "-i" then Some(0)
    else if flag == "-o" then Some(1)
    else if flag == "-l" then Some(2)
    else if flag == "-k" then Some(3)
    else if flag == "--model" then Some(4)
    else if flag == "--batch-size" then Some(5)
    else if flag == "--description" then Some(6)
    else if flag == "-v" then Some(7)
    else if flag == "--extract-audio" then Some(8)
    else None
  }

  /**
   * Reads options whose rank is at least `next`, each at most once and in
   * rank order; anything else is rejected.
   */
  function ParseArgs(args: seq<string>, next: nat, acc: GstArgs): Option<GstArgs>
    decreases |args|
  {
    if args == [] then Some(acc)
    else match RankOf(args[0])
      case None => None
      case Some(rank) =>
        if rank < next then None
        else if rank == 8 then ParseArgs(args[1..], rank + 1, acc.(extractAudio := true))
        else if |args| < 2 then None
        else ParseArgs(args[2..], rank + 1, WithField(acc, rank, args[1]))
  }

  /** A full command line: the program, the `translate` sub-command, then the options. */
  function ParseCommand(cmd: seq<string>): Option<Invocation> {
    if |cmd| < 2 || cmd[1] != "translate" then None
    else match ParseArgs(cmd[2..], 0, NoArgs)
      case None => None
      case Some(a) => Some(Invocation(cmd[0], a))
  }

  /** The words for the option of rank `k`: the flag and its value, or nothing. */
  function Segment(a: GstArgs, k: nat): seq<string>
    requires k < 9
  {
    if k == 8 then (if a.extractAudio then ["--extract-audio"] else [])
    else if Field(a, k).Some? then [Flags[k], Field(a, k).value]
    else []
  }

  /** The options of rank `k` and above, in rank order. */
  function PrintFrom(a: GstArgs, k: nat): seq<string>
    requires k <= 9
    decreases 9 - k
  {
    if k == 9 then [] else Segment(a, k) + PrintFrom(a, k + 1)
  }

  function PrintArgs(a: GstArgs): seq<string> {
    PrintFrom(a, 0)
  }

  /** `a` with the options of rank `k` and above cleared. */
  function Below(a: GstArgs, k: nat): (r: GstArgs)
    ensures forall j :: 0 <= j < 8 ==> Field(r, j) == if j < k then Field(a, j) else None
    ensures r.extractAudio == (k > 8 && a.extractAudio)
  {
    GstArgs(
      if k > 0 then a.input else None,
      if k > 1 then a.output else None,
      if k > 2 then a.language else None,
      if k > 3 then a.apiKey else None,
      if k > 4 then a.model else None,
      if k > 5 then a.batchSize else None,
      if k > 6 then a.description else None,
      if k > 7 then a.video else None,
      k > 8 && a.extractAudio)
  }

  lemma SameFields(a: GstArgs, b: GstArgs)
    requires forall j :: 0 <= j < 8 ==> Field(a, j) == Field(b, j)
    requires a.extractAudio == b.extractAudio
    ensures a == b
  {
    assert Field(a, 0) == Field(b, 0) && Field(a, 1) == Field(b, 1);
    assert Field(a, 2) == Field(b, 2) && Field(a, 3) == Field(b, 3);
    assert Field(a, 4) == Field(b, 4) && Field(a, 5) == Field(b, 5);
    assert Field(a, 6) == Field(b, 6) && Field(a, 7) == Field(b, 7);
  }

  /** Reading a flag that takes a value consumes the flag and the value. */
  lemma ParseValued(flag: string, v: string, rest: seq<string>, next: nat, acc: GstArgs, rank: nat)
    requires RankOf(flag) == Some(rank) && next <= rank < 8
    ensures ParseArgs([flag, v] + rest, next, acc) == ParseArgs(rest, rank + 1, WithField(acc, rank, v))
  {
    var args := [flag, v] + rest;
    assert args[0] == flag && args[1] == v;
    assert args[2..] == rest;
  }

  /** Reading `--extract-audio` consumes the flag alone. */
  lemma ParseAudio(rest: seq<string>, next: nat, acc: GstArgs)
    requires next <= 8
    ensures ParseArgs(["--extract-audio"] + rest, next, acc) == ParseArgs(rest, 9, acc.(extractAudio := true))
  {
    var args := ["--extract-audio"] + rest;
    assert args[0] == "--extract-audio";
    assert args[1..] == rest;
  }

  /** Printing the options of rank `k` and above and reading them back restores `a`. */
  lemma {:induction false} ParsePrintFrom(a: GstArgs, k: nat, next: nat)
    requires next <= k <= 9
    ensures ParseArgs(PrintFrom(a, k), next, Below(a, k)) == Some(a)
    decreases 9 - k, 1
  {
    if k == 9 {
      SameFields(Below(a, 9), a);
    } else if k == 8 {
      ParsePrintAudio(a, next);
    } else if Field(a, k).Some? {
      ParsePrintPresent(a, k, next);
    } else {
      ParsePrintAbsent(a, k, next);
    }
  }

  /** The step of ParsePrintFrom for the last option, `--extract-audio`. */
  lemma {:induction false} ParsePrintAudio(a: GstArgs, next: nat)
    requires next <= 8
    ensures ParseArgs(PrintFrom(a, 8), next, Below(a, 8)) == Some(a)
    decreases 1, 0
  {
    SameFields(Below(a, 9), a);
    assert PrintFrom(a, 9) == [];
    if a.extractAudio {
      assert PrintFrom(a, 8) == ["--extract-audio"] + [];
      ParseAudio([], next, Below(a, 8));
      SameFields(Below(a, 8).(extractAudio := true), a);
    } else {
      assert PrintFrom(a, 8) == [];
      SameFields(Below(a, 8), a);
    }
  }

  /** The step of ParsePrintFrom for an option of rank `k` that is set. */
  lemma {:induction false} ParsePrintPresent(a: GstArgs, k: nat, next: nat)
    requires next <= k < 8 && Field(a, k).Some?
    ensures ParseArgs(PrintFrom(a, k), next, Below(a, k)) == Some(a)
    decreases 9 - k, 0
  {
    var rest := PrintFrom(a, k + 1);
    var v := Field(a, k).value;
    assert PrintFrom(a, k) == [Flags[k], v] + rest;
    assert RankOf(Flags[k]) == Some(k);
    ParseValued(Flags[k], v, rest, next, Below(a, k), k);
    SameFields(WithField(Below(a, k), k, v), Below(a, k + 1));
    ParsePrintFrom(a, k + 1, k + 1);
  }

  /** The step of ParsePrintFrom for an option of rank `k` that is not set. */
  lemma {:induction false} ParsePrintAbsent(a: GstArgs, k: nat, next: nat)
    requires next <= k < 8 && Field(a, k).None?
    ensures ParseArgs(PrintFrom(a, k), next, Below(a, k)) == Some(a)
    decreases 9 - k, 0
  {
    assert PrintFrom(a, k) == PrintFrom(a, k + 1);
    SameFields(Below(a, k), Below(a, k + 1));
    ParsePrintFrom(a, k + 1, next);
  }

  /** Printing and parsing are inverse: every option set survives the round trip. */
  lemma ParsePrint(program: string, a: GstArgs)
    ensures ParseCommand([program, "translate"] + PrintArgs(a)) == Some(Invocation(program, a))
  {
    SameFields(Below(a, 0), NoArgs);
    ParsePrintFrom(a, 0, 0);
    assert ([program, "translate"] + PrintArgs(a))[2..] == PrintArgs(a);
  }

  /** No option of rank `k` or above is set in `a`. */
  predicate ClearFrom(a: GstArgs, k: nat) {
    && (forall j :: k <= j < 8 ==> Field(a, j).None?)
    && (k <= 8 ==> !a.extractAudio)
  }

  /** Options of rank `k` up to `m` that are not set print nothing. */
  lemma {:induction false} SkipUnset(a: GstArgs, k: nat, m: nat)
    requires k <= m <= 8
    requires forall j :: k <= j < m ==> Field(a, j).None?
    ensures PrintFrom(a, k) == PrintFrom(a, m)
    decreases m - k
  {
    if k < m {
      assert Segment(a, k) == [];
      SkipUnset(a, k + 1, m);
    }
  }

  /**
   * Reading is exact: whatever `ParseArgs` accepts from rank `next` on, on top
   * of options with nothing set from that rank, is word for word what printing
   * the result from that rank gives, and the options below `next` are kept.
   */
  lemma {:induction false} PrintParseFrom(args: seq<string>, next: nat, acc: GstArgs, a: GstArgs)
    requires next <= 9 && ClearFrom(acc, next)
    requires ParseArgs(args, next, acc) == Some(a)
    ensures args == PrintFrom(a, next)
    ensures forall j :: 0 <= j < 8 && j < next ==> Field(a, j) == Field(acc, j)
    decreases |args|, 1
  {
    if args == [] {
      PrintParseEmpty(next, acc);
    } else {
      var rank := RankOf(args[0]).value;
      if rank == 8 {
        PrintParseAudio(args, next, acc, a);
      } else {
        PrintParseValued(args, next, acc, a, rank);
      }
    }
  }

  /** The end of the words: nothing set from rank `next` prints nothing. */
  lemma PrintParseEmpty(next: nat, acc: GstArgs)
    requires next <= 9 && ClearFrom(acc, next)
    ensures PrintFrom(acc, next) == []
  {
    if next <= 8 {
      SkipUnset(acc, next, 8);
      assert PrintFrom(acc, 8) == Segment(acc, 8) + PrintFrom(acc, 9);
    }
  }

  /** The step of PrintParseFrom for `--extract-audio`, which must be the last word. */
  lemma {:induction false} PrintParseAudio(args: seq<string>, next: nat, acc: GstArgs, a: GstArgs)
    requires next <= 9 && ClearFrom(acc, next)
    requires args != [] && RankOf(args[0]) == Some(8)
    requires ParseArgs(args, next, acc) == Some(a)
    ensures args == PrintFrom(a, next)
    ensures forall j :: 0 <= j < 8 && j < next ==> Field(a, j) == Field(acc, j)
    decreases |args|, 0
  {
    var acc' := acc.(extractAudio := true);
    assert forall j :: 0 <= j < 8 ==> Field(acc', j) == Field(acc, j);
    PrintParseFrom(args[1..], 9, acc', a);
    assert a == acc';
    SkipUnset(a, next, 8);
    assert PrintFrom(a, 8) == ["--extract-audio"] + PrintFrom(a, 9);
    assert args == [args[0]] + args[1..];
  }

  /** The step of PrintParseFrom for a flag of rank `rank` that takes a value. */
  lemma {:induction false} PrintParseValued(args: seq<string>, next: nat, acc: GstArgs, a: GstArgs, rank: nat)
    requires next <= 9 && ClearFrom(acc, next)
    requires args != [] && RankOf(args[0]) == Some(rank) && rank < 8
    requires ParseArgs(args, next, acc) == Some(a)
    ensures args == PrintFrom(a, next)
    ensures forall j :: 0 <= j < 8 && j < next ==> Field(a, j) == Field(acc, j)
    decreases |args|, 0
  {
    ValuedStep(args, next, acc, rank);
    var acc' := WithField(acc, rank, args[1]);
    ClearAfterField(acc, next, rank, args[1]);
    PrintParseFrom(args[2..], rank + 1, acc', a);
    PrintValued(args, next, acc, a, rank);
  }

  /** A flag of rank `rank` that the parser accepts is followed by its value. */
  lemma ValuedStep(args: seq<string>, next: nat, acc: GstArgs, rank: nat)
    requires args != [] && RankOf(args[0]) == Some(rank) && rank < 8
    requires ParseArgs(args, next, acc).Some?
    ensures next <= rank && |args| >= 2
    ensures ParseArgs(args, next, acc) == ParseArgs(args[2..], rank + 1, WithField(acc, rank, args[1]))
  {
  }

  /** Setting the option of rank `rank` keeps everything above it clear. */
  lemma ClearAfterField(acc: GstArgs, next: nat, rank: nat, v: string)
    requires ClearFrom(acc, next) && next <= rank < 8
    ensures ClearFrom(WithField(acc, rank, v), rank + 1)
  {
  }

  /** The words of a valued flag, once the rest is known to be the printed form above its rank. */
  lemma PrintValued(args: seq<string>, next: nat, acc: GstArgs, a: GstArgs, rank: nat)
    requires ClearFrom(acc, next) && next <= rank < 8 && |args| >= 2
    requires RankOf(args[0]) == Some(rank)
    requires args[2..] == PrintFrom(a, rank + 1)
    requires forall j :: 0 <= j < 8 && j < rank + 1 ==> Field(a, j) == Field(WithField(acc, rank, args[1]), j)
    ensures args == PrintFrom(a, next)
    ensures forall j :: 0 <= j < 8 && j < next ==> Field(a, j) == Field(acc, j)
  {
    assert Field(a, rank) == Some(args[1]);
    SkipUnset(a, next, rank);
    assert PrintFrom(a, rank) == [Flags[rank], args[1]] + args[2..];
    assert args == [args[0], args[1]] + args[2..];
  }

  /** A command line that parses is the program, `translate` and the printed options, word for word. */
  lemma PrintParse(cmd: seq<string>)
    requires ParseCommand(cmd).Some?
    ensures cmd == [ParseCommand(cmd).value.program, "translate"] + PrintArgs(ParseCommand(cmd).value.args)
  {
    var a := ParseArgs(cmd[2..], 0, NoArgs).value;
    PrintParseFrom(cmd[2..], 0, NoArgs, a);
    assert cmd == [cmd[0], cmd[1]] + cmd[2..];
  }

  /** The parser pins a command line down: two that parse to the same invocation are equal. */
  lemma ParseDeterminesCommand(c1: seq<string>, c2: seq<string>)
    requires ParseCommand(c1).Some? && ParseCommand(c1) == ParseCommand(c2)
    ensures c1 == c2
  {
    PrintParse(c1);
    PrintParse(c2);
  }

  // ---------------------------------------------------------------------
  // _build_gst_command
  // ---------------------------------------------------------------------

  function ApiKeyOption(config: TranslationConfig): Option<string> {
    var key := Trim(config.GeminiApiKey());
    if key != [] then Some(key) else None
  }

  /** What the runner asks the tool to do, option by option. */
  function ExpectedArgs(subtitle: Option<string>, video: Option<string>, config: TranslationConfig,
                        codeOrder: seq<string>): GstArgs
    requires OutputSource(subtitle, video).Some?
  {
    var model := config.Model();
    GstArgs(
      input := if Usable(subtitle) then subtitle else None,
      output := Some(OutputFilePath(OutputSource(subtitle, video).value, config.LanguageCode(), codeOrder)),
      language := Some(config.Language()),
      apiKey := ApiKeyOption(config),
      model := Some(model),
      batchSize := if Contains(model, "2.0") then Some("100") else None,
      description := Description(config),
      video := if Usable(video) then video else None,
      extractAudio := Usable(video) && config.ExtractAudio())
  }

  /**
   * `_build_gst_command`: grows the argument vector option by option. It
   * raises `TypeError` (from `Path(None)`) exactly when neither a usable
   * subtitle nor any video is given; it never returns an empty vector.
   */
  method BuildGstCommand(gst: string, subtitle: Option<string>, video: Option<string>,
                         config: TranslationConfig, codeOrder: seq<string>)
    returns (r: Outcome<seq<string>>)
    ensures r.Raised? <==> OutputSource(subtitle, video).None?
    ensures r.Raised? ==> r.exception == "TypeError"
    ensures r.Returned? ==>
      && |r.value| > 2 && r.value[..2] == [gst, "translate"]
      && ParseCommand(r.value) == Some(Invocation(gst, ExpectedArgs(subtitle, video, config, codeOrder)))
      && r.value == [gst, "translate"] + PrintArgs(ExpectedArgs(subtitle, video, config, codeOrder))
  {
    var cmd := [gst, "translate"];
    var sub := subtitle;
    if Truthy(subtitle) {
      if !IsSentinel(subtitle.value) {
        cmd := cmd + ["-i", subtitle.value];
      } else {
        sub := None;
      }
    }
    assert cmd == [gst, "translate"] + InputWords(subtitle);
    var source := if Truthy(sub) then sub else video;
    if source.None? {
      return Raised("TypeError");
    }
    assert source == OutputSource(subtitle, video);
    var output := OutputFilePath(source.value, config.LanguageCode(), codeOrder);
    cmd := AddOutputAndModel(cmd, output, config);
    cmd := AddDescription(cmd, config);
    cmd := AddVideo(cmd, video, config.ExtractAudio());
    AssembledCommandParses(gst, subtitle, video, config, codeOrder, cmd);
    return Returned(cmd);
  }

  /** The `-i` words: the subtitle path, when it is usable. */
  function InputWords(subtitle: Option<string>): seq<string> {
    if Usable(subtitle) then ["-i", subtitle.value] else []
  }

  /** The `-k` words: the stripped Gemini key, when there is one. */
  function KeyWords(config: TranslationConfig): seq<string> {
    var key := Trim(config.GeminiApiKey());
    if key != [] then ["-k", key] else []
  }

  /** The `--batch-size` words, for a Gemini 2.0 model. */
  function BatchWords(config: TranslationConfig): seq<string> {
    if Contains(config.Model(), "2.0") then ["--batch-size", "100"] else []
  }

  /**
   * The output, language, key, model and batch-size steps of
   * `_build_gst_command`, in that order.
   */
  function OptionWords(output: string, config: TranslationConfig): seq<string> {
    ["-o", output] + ["-l", config.Language()] + KeyWords(config) + ["--model", config.Model()] + BatchWords(config)
  }

  method AddOutputAndModel(cmd: seq<string>, output: string, config: TranslationConfig) returns (r: seq<string>)
    ensures r == cmd + OptionWords(output, config)
  {
    r := cmd + ["-o", output];
    r := r + ["-l", config.Language()];
    var key := Trim(config.GeminiApiKey());
    if key != [] {
      r := r + ["-k", key];
    }
    var model := config.Model();
    r := r + ["--model", model];
    if Contains(model, "2.0") {
      r := r + ["--batch-size", "100"];
    }
  }

  function DescriptionWords(config: TranslationConfig): seq<string> {
    match Description(config)
    case Some(d) => ["--description", d]
    case None => []
  }

  /**
   * The description step of `_build_gst_command`: the four-way choice on the
   * stripped overview and title.
   */
  method AddDescription(cmd: seq<string>, config: TranslationConfig) returns (r: seq<string>)
    ensures r == cmd + DescriptionWords(config)
  {
    var overview := Trim(config.Overview());
    var title := Trim(config.MovieTitle());
    if overview != [] && title != [] {
      var kind := ContentType(config.IsTvSeries());
      var description := StylePrompt + " It is a " + kind + " called " + title + ". Description: " + overview;
      r := cmd + ["--description", description];
    } else if overview != [] {
      r := cmd + ["--description", overview];
    } else if title != [] {
      var kind := ContentType(config.IsTvSeries());
      r := cmd + ["--description", "It is a " + kind + " called " + title + "."];
    } else {
      r := cmd;
    }
  }

  /**
   * The video step of `_build_gst_command`: `-v` for a usable video, then
   * `--extract-audio` when audio extraction is on.
   */
  method AddVideo(cmd: seq<string>, video: Option<string>, extractAudio: bool) returns (r: seq<string>)
    ensures r == cmd + VideoWords(video, extractAudio)
  {
    r := cmd;
    if Truthy(video) {
      if !IsSentinel(video.value) {
        if extractAudio {
          r := r + ["-v", video.value];
          r := r + ["--extract-audio"];
        } else {
          r := r + ["-v", video.value];
        }
      }
    }
  }

  function VideoWords(video: Option<string>, extractAudio: bool): seq<string> {
    (if Usable(video) then ["-v", video.value] else [])
    + (if Usable(video) && extractAudio then ["--extract-audio"] else [])
  }

  /** The vector the builder assembles, step by step, parses back to `ExpectedArgs`. */
  lemma AssembledCommandParses(gst: string, subtitle: Option<string>, video: Option<string>,
                               config: TranslationConfig, codeOrder: seq<string>, cmd: seq<string>)
    requires OutputSource(subtitle, video).Some?
    requires cmd == [gst, "translate"] + InputWords(subtitle)
      + OptionWords(OutputFilePath(OutputSource(subtitle, video).value, config.LanguageCode(), codeOrder), config)
      + DescriptionWords(config) + VideoWords(video, config.ExtractAudio())
    ensures |cmd| > 2 && cmd[..2] == [gst, "translate"]
    ensures ParseCommand(cmd) == Some(Invocation(gst, ExpectedArgs(subtitle, video, config, codeOrder)))
    ensures cmd == [gst, "translate"] + PrintArgs(ExpectedArgs(subtitle, video, config, codeOrder))
  {
    var a := ExpectedArgs(subtitle, video, config, codeOrder);
    var s0 := InputWords(subtitle);
    var s1 := ["-o", OutputFilePath(OutputSource(subtitle, video).value, config.LanguageCode(), codeOrder)];
    var s2, s3, s4, s5 := ["-l", config.Language()], KeyWords(config), ["--model", config.Model()], BatchWords(config);
    var s6 := DescriptionWords(config);
    var s7 := if Usable(video) then ["-v", video.value] else [];
    var s8 := if Usable(video) && config.ExtractAudio() then ["--extract-audio"] else [];
    ExpectedSegments(subtitle, video, config, codeOrder);
    Regroup([gst, "translate"], s0, s1, s2, s3, s4, s5, s6, s7, s8);
    SegmentsParse(gst, a, s0, s1, s2, s3, s4, s5, s6, s7, s8);
    PrintParse(cmd);
  }

  /** The builder's four appends, regrouped option by option. */
  lemma Regroup(h: seq<string>, s0: seq<string>, s1: seq<string>, s2: seq<string>, s3: seq<string>,
                s4: seq<string>, s5: seq<string>, s6: seq<string>, s7: seq<string>, s8: seq<string>)
    ensures h + s0 + (s1 + s2 + s3 + s4 + s5) + s6 + (s7 + s8)
         == h + ([] + s0 + s1 + s2 + s3 + s4 + s5 + s6 + s7 + s8)
  {
    var o := s1 + s2 + s3 + s4 + s5;
    assert [] + s0 + s1 + s2 + s3 + s4 + s5 == s0 + o;
    assert [] + s0 + s1 + s2 + s3 + s4 + s5 + s6 + s7 + s8 == s0 + o + s6 + (s7 + s8);
  }

  /** Options emitted segment by segment, in rank order, parse back to the options they came from. */
  lemma SegmentsParse(gst: string, a: GstArgs, s0: seq<string>, s1: seq<string>, s2: seq<string>, s3: seq<string>,
                      s4: seq<string>, s5: seq<string>, s6: seq<string>, s7: seq<string>, s8: seq<string>)
    requires s0 == Segment(a, 0) && s1 == Segment(a, 1) && s2 == Segment(a, 2)
    requires s3 == Segment(a, 3) && s4 == Segment(a, 4) && s5 == Segment(a, 5)
    requires s6 == Segment(a, 6) && s7 == Segment(a, 7) && s8 == Segment(a, 8)
    ensures ParseCommand([gst, "translate"] + ([] + s0 + s1 + s2 + s3 + s4 + s5 + s6 + s7 + s8))
         == Some(Invocation(gst, a))
  {
    PrintedSegments(a, s0, s1, s2, s3, s4, s5, s6, s7, s8);
    ParsePrint(gst, a);
  }

  lemma PrintedSegments(a: GstArgs, s0: seq<string>, s1: seq<string>, s2: seq<string>, s3: seq<string>,
                        s4: seq<string>, s5: seq<string>, s6: seq<string>, s7: seq<string>, s8: seq<string>)
    requires s0 == Segment(a, 0) && s1 == Segment(a, 1) && s2 == Segment(a, 2)
    requires s3 == Segment(a, 3) && s4 == Segment(a, 4) && s5 == Segment(a, 5)
    requires s6 == Segment(a, 6) && s7 == Segment(a, 7) && s8 == Segment(a, 8)
    ensures PrintArgs(a) == [] + s0 + s1 + s2 + s3 + s4 + s5 + s6 + s7 + s8
  {
    PrintedBelowAll(a, 9);
    assert PrintFrom(a, 9) == [];
    assert PrintedBelow(a, 9) == PrintedBelow(a, 8) + s8;
    assert PrintedBelow(a, 8) == PrintedBelow(a, 7) + s7;
    assert PrintedBelow(a, 7) == PrintedBelow(a, 6) + s6;
    assert PrintedBelow(a, 6) == PrintedBelow(a, 5) + s5;
    assert PrintedBelow(a, 5) == PrintedBelow(a, 4) + s4;
    assert PrintedBelow(a, 4) == PrintedBelow(a, 3) + s3;
    assert PrintedBelow(a, 3) == PrintedBelow(a, 2) + s2;
    assert PrintedBelow(a, 2) == PrintedBelow(a, 1) + s1;
    assert PrintedBelow(a, 1) == [] + s0;
  }

  /** The words `ExpectedArgs` prints for each option, in terms of the inputs. */
  lemma ExpectedSegments(subtitle: Option<string>, video: Option<string>, config: TranslationConfig,
                         codeOrder: seq<string>)
    requires OutputSource(subtitle, video).Some?
    ensures var a := ExpectedArgs(subtitle, video, config, codeOrder);
      && Segment(a, 0) == (if Usable(subtitle) then ["-i", subtitle.value] else [])
      && Segment(a, 1) == ["-o", OutputFilePath(OutputSource(subtitle, video).value, config.LanguageCode(), codeOrder)]
      && Segment(a, 2) == ["-l", config.Language()]
      && Segment(a, 3) == (if Trim(config.GeminiApiKey()) != [] then ["-k", Trim(config.GeminiApiKey())] else [])
      && Segment(a, 4) == ["--model", config.Model()]
      && Segment(a, 5) == (if Contains(config.Model(), "2.0") then ["--batch-size", "100"] else [])
      && Segment(a, 6) == (if Description(config).Some? then ["--description", Description(config).value] else [])
      && Segment(a, 7) == (if Usable(video) then ["-v", video.value] else [])
      && Segment(a, 8) == (if Usable(video) && config.ExtractAudio() then ["--extract-audio"] else [])
  {
    SegmentValues(ExpectedArgs(subtitle, video, config, codeOrder));
  }

  lemma SegmentValues(a: GstArgs)
    ensures Segment(a, 0) == (if a.input.Some? then ["-i", a.input.value] else [])
    ensures Segment(a, 1) == (if a.output.Some? then ["-o", a.output.value] else [])
    ensures Segment(a, 2) == (if a.language.Some? then ["-l", a.language.value] else [])
    ensures Segment(a, 3) == (if a.apiKey.Some? then ["-k", a.apiKey.value] else [])
    ensures Segment(a, 4) == (if a.model.Some? then ["--model", a.model.value] else [])
    ensures Segment(a, 5) == (if a.batchSize.Some? then ["--batch-size", a.batchSize.value] else [])
    ensures Segment(a, 6) == (if a.description.Some? then ["--description", a.description.value] else [])
    ensures Segment(a, 7) == (if a.video.Some? then ["-v", a.video.value] else [])
    ensures Segment(a, 8) == (if a.extractAudio then ["--extract-audio"] else [])
  {
  }

  lemma Associative(p: seq<string>, w: seq<string>, f: seq<string>)
    ensures (p + w) + f == p + (w + f)
  {
  }

  /** The options of rank below `k`, in rank order: what the builder has emitted so far. */
  function PrintedBelow(a: GstArgs, k: nat): seq<string>
    requires k <= 9
  {
    if k == 0 then [] else PrintedBelow(a, k - 1) + Segment(a, k - 1)
  }

  lemma {:induction false} PrintedBelowAll(a: GstArgs, k: nat)
    requires k <= 9
    ensures PrintedBelow(a, k) + PrintFrom(a, k) == PrintArgs(a)
  {
    if k > 0 {
      PrintedBelowAll(a, k - 1);
      var p, w, f := PrintedBelow(a, k - 1), Segment(a, k - 1), PrintFrom(a, k);
      assert PrintFrom(a, k - 1) == w + f;
      assert PrintedBelow(a, k) == p + w;
      Associative(p, w, f);
    }
  }

  // ---------------------------------------------------------------------
  // Properties of the description and of the sentinel test
  // ---------------------------------------------------------------------

  /**
   * The description is given exactly when there is an overview or a title;
   * it ends with the overview whenever there is one, and names the title
   * whenever there is one.
   */
  lemma DescriptionCases(config: TranslationConfig)
    ensures var d := Description(config);
      var overview, title := Trim(config.Overview()), Trim(config.MovieTitle());
      && (d.Some? <==> overview != [] || title != [])
      && (overview != [] ==> EndsWith(d.value, overview))
      && (title != [] ==> Contains(d.value, " called " + title + "."))
      && (overview != [] && title != [] ==> StartsWith(d.value, StylePrompt))
  {
    var overview, title := Trim(config.Overview()), Trim(config.MovieTitle());
    var kind := ContentType(config.IsTvSeries());
    if overview != [] && title != [] {
      FullDescriptionShape(StylePrompt, kind, title, overview);
    } else if title != [] {
      TitleDescriptionShape(kind, title);
    }
  }

  lemma FullDescriptionShape(prompt: string, kind: string, title: string, overview: string)
    ensures var d := prompt + " It is a " + kind + " called " + title + ". Description: " + overview;
      && EndsWith(d, overview)
      && Contains(d, " called " + title + ".")
      && StartsWith(d, prompt)
  {
    var named := " called " + title + ".";
    var head := prompt + " It is a " + kind;
    var d := head + named + " Description: " + overview;
    assert d == prompt + " It is a " + kind + " called " + title + ". Description: " + overview;
    assert d == head + (named + " Description: " + overview);
    assert d[|head|..|head| + |named|] == named;
    ContainsAt(d, named, |head|);
    assert d[..|prompt|] == prompt;
  }

  lemma TitleDescriptionShape(kind: string, title: string)
    ensures Contains("It is a " + kind + " called " + title + ".", " called " + title + ".")
  {
    var named := " called " + title + ".";
    var head := "It is a " + kind;
    var d := head + named;
    assert d == "It is a " + kind + " called " + title + ".";
    assert d[|head|..|head| + |named|] == named;
    ContainsAt(d, named, |head|);
  }

  /**
   * The placeholder test looks at the end of the file name only: a name
   * ending in "None" is a placeholder, a directory called "None" is not.
   */
  lemma SentinelIsSuffixTest(placeholder: string, nested: string, inNoneDir: string)
    requires placeholder == "No match" && nested == "films/Movie.None" && inNoneDir == "None/movie.srt"
    ensures IsSentinel(placeholder) && IsSentinel(nested) && !IsSentinel(inNoneDir)
  {
    NoMatchIsSentinel(placeholder);
    NestedPlaceholder(nested);
    PlaceholderDirectory(inNoneDir);
  }

  lemma NestedPlaceholder(p: string)
    requires p == "films/Movie.None"
    ensures IsSentinel(p)
  {
    NameAfter(p, 5);
    var n := p[6..];
    assert n == "Movie.None";
    assert n[|n| - 4..] == "None";
  }

  lemma PlaceholderDirectory(p: string)
    requires p == "None/movie.srt"
    ensures !IsSentinel(p)
  {
    NameAfter(p, 4);
    assert p[5..] == "movie.srt";
  }

  // ---------------------------------------------------------------------
  // The file the attribution caption is added to
  // ---------------------------------------------------------------------

  /**
   * The file `_run_single_translation` opens after a successful run, as
   * written: the subtitle whenever it is truthy, placeholder or not, else the
   * video; `None` when `Path(None)` raises there (the exception is caught).
   */
  function AttributionTargetAsWritten(subtitle: Option<string>, video: Option<string>,
                                      config: TranslationConfig, codeOrder: seq<string>): Option<string>
  {
    var source := if Truthy(subtitle) then subtitle else video;
    if source.None? then None
    else Some(OutputFilePath(source.value, config.LanguageCode(), codeOrder))
  }

  /** The corrected choice: the same file the command names after `-o`. */
  function AttributionTarget(subtitle: Option<string>, video: Option<string>,
                             config: TranslationConfig, codeOrder: seq<string>): (r: Option<string>)
    ensures r.None? <==> OutputSource(subtitle, video).None?
  {
    match OutputSource(subtitle, video)
    case None => None
    case Some(source) => Some(OutputFilePath(source, config.LanguageCode(), codeOrder))
  }

  /** The corrected target is the output file the tool was told to write. */
  lemma AttributionTargetIsCommandOutput(subtitle: Option<string>, video: Option<string>,
                                         config: TranslationConfig, codeOrder: seq<string>)
    requires OutputSource(subtitle, video).Some?
    ensures AttributionTarget(subtitle, video, config, codeOrder)
      == ExpectedArgs(subtitle, video, config, codeOrder).output
  {
  }

  /** Both choices agree except when the subtitle is a truthy placeholder. */
  lemma AttributionTargetsAgree(subtitle: Option<string>, video: Option<string>,
                                config: TranslationConfig, codeOrder: seq<string>)
    requires !(Truthy(subtitle) && IsSentinel(subtitle.value))
    ensures AttributionTargetAsWritten(subtitle, video, config, codeOrder)
      == AttributionTarget(subtitle, video, config, codeOrder)
  {
  }

  /**
   * A single dropped video is listed with the subtitle placeholder "No match".
   * The tool then writes "movie.<code>.srt" (the corrected target, which is the
   * command's `-o` value), but the caption is looked for in "No match.<code>.srt",
   * whatever the code order.
   */
  lemma PlaceholderSubtitleMissesOutput(placeholder: string, video: string,
                                        config: TranslationConfig, codeOrder: seq<string>)
    requires placeholder == "No match" && video == "movie.mkv"
    ensures var code := config.LanguageCode();
      && AttributionTarget(Some(placeholder), Some(video), config, codeOrder)
         == Some("movie" + "." + code + ".srt")
      && AttributionTargetAsWritten(Some(placeholder), Some(video), config, codeOrder)
         == Some("No match" + "." + code + ".srt")
      && AttributionTargetAsWritten(Some(placeholder), Some(video), config, codeOrder)
         != AttributionTarget(Some(placeholder), Some(video), config, codeOrder)
  {
    var code := config.LanguageCode();
    NoMatchIsSentinel(placeholder);
    SentinelTargets(placeholder, video, config, codeOrder);
    MovieOutput(video, code, codeOrder);
    PlaceholderOutput(placeholder, code, codeOrder);
    OutputNamesDiffer(code);
  }

  lemma SentinelTargets(placeholder: string, video: string, config: TranslationConfig, codeOrder: seq<string>)
    requires placeholder != [] && IsSentinel(placeholder)
    ensures AttributionTargetAsWritten(Some(placeholder), Some(video), config, codeOrder)
      == Some(OutputFilePath(placeholder, config.LanguageCode(), codeOrder))
    ensures AttributionTarget(Some(placeholder), Some(video), config, codeOrder)
      == Some(OutputFilePath(video, config.LanguageCode(), codeOrder))
  {
  }

  lemma MovieOutput(video: string, code: string, codeOrder: seq<string>)
    requires video == "movie.mkv"
    ensures OutputFilePath(video, code, codeOrder) == "movie" + "." + code + ".srt"
  {
    var stem, ext := video[..5], video[6..];
    assert stem == "movie" && ext == "mkv";
    assert video == stem + "." + ext;
    DottedOutput(stem, ext, code, codeOrder);
  }

  lemma NoMatchIsSentinel(p: string)
    requires p == "No match"
    ensures IsSentinel(p)
  {
    FlatName(p);
  }

  lemma PlaceholderOutput(placeholder: string, code: string, codeOrder: seq<string>)
    requires placeholder == "No match"
    ensures OutputFilePath(placeholder, code, codeOrder) == "No match" + "." + code + ".srt"
  {
    UndottedOutput(placeholder, code, codeOrder);
  }

  lemma OutputNamesDiffer(code: string)
    ensures "movie" + "." + code + ".srt" != "No match" + "." + code + ".srt"
  {
    assert ("movie" + "." + code + ".srt")[0] != ("No match" + "." + code + ".srt")[0];
  }
}
