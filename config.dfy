/**
 * The settings store of the GUI (`ConfigManager` in
 * gst_gui/gui/config_manager.py): a dictionary of settings with defaults
 * merged in on load and import, point updates, presence checks, grouped
 * getters and validation.
 *
 * The settings file is an input: the dictionary decoded from it, or None
 * when it is missing, unreadable, not JSON or not a JSON object. The
 * getters only read the dictionary, so they are functions of it.
 */
module Config {
  import opened Common
  import opened Text

  /** A JSON value as the settings hold it; `Other` is any other value, with the text `str()` gives for it. */
  datatype Value = Str(s: string) | Bool(b: bool) | Null | Other(shown: string)

  type Settings = map<string, Value>

  /** The default settings. */
  const Defaults: Settings := map[
    "gemini_api_key" := Str(""),
    "model" := Str("gemini-2.5-flash"),
    "tmdb_api_key" := Str(""),
    "tmdb_id" := Str(""),
    "api_expanded" := Bool(false),
    "settings_expanded" := Bool(false),
    "language" := Str("Korean"),
    "language_code" := Str("ko"),
    "extract_audio" := Bool(false),
    "auto_fetch_tmdb" := Bool(true),
    "is_tv_series" := Bool(false)
  ]

  /** The models `validate_config` accepts. */
  const ValidModels: seq<string> := ["gemini-2.5-flash-preview-05-20", "gemini-2.0-flash", "gemini-2.5-pro-preview-06-05"]

  /** `{**defaults, **loaded}`: the defaults, overridden by what was loaded. */
  function Merged(loaded: Settings): (r: Settings)
    ensures forall k :: k in Defaults ==> k in r
    ensures forall k :: k in loaded ==> k in r && r[k] == loaded[k]
    ensures forall k :: k in r && k !in loaded ==> k in Defaults && r[k] == Defaults[k]
  {
    Defaults + loaded
  }

  /** The settings after `load_config`: the merge when a dictionary was read, else a copy of the defaults. */
  function Loaded(file: Option<Settings>): Settings {
    match file
    case Some(loaded) => Merged(loaded)
    case None => Defaults
  }

  /** `dict.get(key, default)`. */
  function Get(config: Settings, key: string, default: Value): (r: Value)
    ensures key !in config ==> r == default
    ensures key in config ==> r == config[key]
  {
    if key in config then config[key] else default
  }

  /**
   * After a load every default key is present, keys from the file win, and
   * a missing or unreadable file gives exactly the defaults.
   */
  lemma LoadedSpec(file: Option<Settings>)
    ensures forall k :: k in Defaults ==> k in Loaded(file)
    ensures file.None? ==> Loaded(file) == Defaults
    ensures file.Some? ==> forall k :: k in file.value ==> Get(Loaded(file), k, Null) == file.value[k]
    ensures file.Some? ==> forall k :: k in Defaults && k !in file.value ==> Get(Loaded(file), k, Null) == Defaults[k]
  {
  }

  /** `set` changes what its key reads and nothing else. */
  lemma SetChangesOnlyItsKey(config: Settings, key: string, value: Value, other: string, default: Value)
    ensures Get(config[key := value], key, default) == value
    ensures other != key ==> Get(config[key := value], other, default) == Get(config, other, default)
  {
  }

  /** `update` overwrites exactly the keys it is given. */
  lemma UpdateOverwritesGivenKeys(config: Settings, updates: Settings, k: string, default: Value)
    ensures k in updates ==> Get(config + updates, k, default) == updates[k]
    ensures k !in updates ==> Get(config + updates, k, default) == Get(config, k, default)
  {
  }

  // ---------------------------------------------------------------------
  // Grouped getters
  // ---------------------------------------------------------------------

  /** `get_api_config`. */
  function ApiConfig(config: Settings): (r: Settings)
    ensures r.Keys == {"gemini_api_key", "model", "tmdb_api_key"}
  {
    map[
      "gemini_api_key" := Get(config, "gemini_api_key", Str("")),
      "model" := Get(config, "model", Str("gemini-pro")),
      "tmdb_api_key" := Get(config, "tmdb_api_key", Str(""))
    ]
  }

  /** `get_ui_config`. */
  function UiConfig(config: Settings): (r: Settings)
    ensures r.Keys == {"api_expanded", "settings_expanded"}
  {
    map[
      "api_expanded" := Get(config, "api_expanded", Bool(false)),
      "settings_expanded" := Get(config, "settings_expanded", Bool(false))
    ]
  }

  /** `get_processing_config`. */
  function ProcessingConfig(config: Settings): (r: Settings)
    ensures r.Keys == {"language", "extract_audio", "auto_fetch_tmdb", "language_code", "tmdb_id"}
  {
    map[
      "language" := Get(config, "language", Str("Korean")),
      "extract_audio" := Get(config, "extract_audio", Bool(false)),
      "auto_fetch_tmdb" := Get(config, "auto_fetch_tmdb", Bool(true)),
      "language_code" := Get(config, "language_code", Str("ko")),
      "tmdb_id" := Get(config, "tmdb_id", Str(""))
    ]
  }

  /**
   * The processing settings never carry the TV-series switch or the
   * translator-credit switch, so whoever reads those two from them always
   * gets the fallback.
   */
  lemma ProcessingConfigOmitsSwitches(config: Settings, fallback: Value)
    ensures "is_tv_series" !in ProcessingConfig(config)
    ensures "add_translator_info" !in ProcessingConfig(config)
    ensures Get(ProcessingConfig(config), "is_tv_series", fallback) == fallback
    ensures Get(ProcessingConfig(config), "add_translator_info", fallback) == fallback
  {
    var keys := ProcessingConfig(config).Keys;
    assert "is_tv_series" !in keys;
    assert "add_translator_info" !in keys;
  }

  /** The processing settings of a fresh store are the defaults'. */
  lemma ProcessingConfigOfDefaults()
    ensures ProcessingConfig(Defaults) == map[
      "language" := Str("Korean"), "extract_audio" := Bool(false), "auto_fetch_tmdb" := Bool(true),
      "language_code" := Str("ko"), "tmdb_id" := Str("")]
  {
  }

  // ---------------------------------------------------------------------
  // Presence checks and validation
  // ---------------------------------------------------------------------

  /**
   * `bool(self.get(key, '').strip())`: whether the setting holds text other
   * than whitespace. A setting that is not text has no `strip` and raises
   * AttributeError.
   */
  function HasText(config: Settings, key: string): (r: Outcome<bool>)
    ensures r.Raised? <==> !Get(config, key, Str("")).Str?
    ensures r.Raised? ==> r.exception == "AttributeError"
    ensures key !in config ==> r == Returned(false)
  {
    match Get(config, key, Str(""))
    case Str(s) => Returned(!IsBlank(s))
    case _ => Raised("AttributeError")
  }

  /** A text setting is present exactly when stripping it leaves something. */
  lemma HasTextSpec(config: Settings, key: string, s: string)
    requires Get(config, key, Str("")) == Str(s)
    ensures HasText(config, key) == Returned(Trim(s) != [])
  {
    StripBlank(s);
  }

  function HasGeminiApiKey(config: Settings): Outcome<bool> { HasText(config, "gemini_api_key") }
  function HasTmdbApiKey(config: Settings): Outcome<bool> { HasText(config, "tmdb_api_key") }
  function HasTmdbId(config: Settings): Outcome<bool> { HasText(config, "tmdb_id") }

  /** `f"{value}"`. */
  function Format(v: Value): string {
    match v
    case Str(s) => s
    case Bool(b) => if b then "True" else "False"
    case Null => "None"
    case Other(shown) => shown
  }

  /** Whether `validate_config` accepts the model setting. */
  predicate IsValidModel(model: Value) {
    model.Str? && model.s in ValidModels
  }

  /** The issue `validate_config` reports for a model it does not accept. */
  function ModelIssue(model: Value): string {
    "Invalid model: " + Format(model)
  }

  const MissingKeyIssue: string := "Gemini API key is missing"
  const NoLanguageIssue: string := "Language is not set"

  /** `validate_config`: the issues in order, or the exception a non-text setting raises. */
  function Validation(config: Settings): (r: Outcome<seq<string>>)
    ensures r.Returned? ==> |r.value| <= 3
    ensures r.Returned? ==> forall k :: 0 <= k < |r.value| ==> r.value[k] != []
  {
    var hasKey := HasGeminiApiKey(config);
    var model := Get(config, "model", Str(""));
    var language := Get(config, "language", Str(""));
    if hasKey.Raised? then Raised(hasKey.exception)
    else if !language.Str? then Raised("AttributeError")
    else
      Returned(
        (if hasKey.value then [] else [MissingKeyIssue])
        + (if IsValidModel(model) then [] else [ModelIssue(model)])
        + (if IsBlank(language.s) then [NoLanguageIssue] else []))
  }

  /**
   * The issues are, in this order: the missing Gemini key, the invalid
   * model, the unset language, each exactly when it applies; validation
   * raises only on a key or a language that is not text.
   */
  lemma ValidationSpec(config: Settings)
    ensures var r := Validation(config);
      var noKey := HasGeminiApiKey(config) == Returned(false);
      var model := Get(config, "model", Str(""));
      var badModel := !IsValidModel(model);
      var language := Get(config, "language", Str(""));
      && (r.Raised? <==> !Get(config, "gemini_api_key", Str("")).Str? || !language.Str?)
      && (r.Returned? ==>
            && |r.value| == (if noKey then 1 else 0) + (if badModel then 1 else 0) + (if IsBlank(language.s) then 1 else 0)
            && (noKey ==> r.value[0] == MissingKeyIssue)
            && (badModel ==> r.value[if noKey then 1 else 0] == ModelIssue(model))
            && (IsBlank(language.s) ==> r.value[|r.value| - 1] == NoLanguageIssue))
  {
    var hasKey := HasGeminiApiKey(config);
    var model := Get(config, "model", Str(""));
    var language := Get(config, "language", Str(""));
    if hasKey.Returned? && language.Str? {
      var keyIssues := if hasKey.value then [] else [MissingKeyIssue];
      var modelIssues := if IsValidModel(model) then [] else [ModelIssue(model)];
      var languageIssues := if IsBlank(language.s) then [NoLanguageIssue] else [];
      assert Validation(config) == Returned(keyIssues + modelIssues + languageIssues);
    }
  }

  /**
   * The defaults fail validation twice: no Gemini key, and a default model
   * that is not in the valid list.
   */
  lemma DefaultsGiveTwoIssues()
    ensures Defaults["model"] == Str("gemini-2.5-flash")
    ensures Validation(Defaults) == Returned([MissingKeyIssue, "Invalid model: " + Defaults["model"].s])
  {
    assert Get(Defaults, "gemini_api_key", Str("")) == Str("");
    assert HasGeminiApiKey(Defaults) == Returned(false);
    var model := Get(Defaults, "model", Str(""));
    assert model == Str("gemini-2.5-flash");
    DefaultModelIsInvalid(model.s);
    assert Get(Defaults, "language", Str("")) == Str("Korean");
    assert "Korean"[0] !in Whitespace;
    var issues := [MissingKeyIssue] + [ModelIssue(model)] + [];
    assert Validation(Defaults) == Returned(issues);
    assert issues == [MissingKeyIssue, ModelIssue(model)];
  }

  lemma DefaultModelIsInvalid(model: string)
    requires model == "gemini-2.5-flash"
    ensures model !in ValidModels
  {
    assert model != ValidModels[0] by { assert |model| != |ValidModels[0]|; }
    assert model != ValidModels[1] by { assert model[9] != ValidModels[1][9]; }
    assert model != ValidModels[2] by { assert |model| != |ValidModels[2]|; }
  }

  /** `get_config_summary`, with the settings file's path given. */
  function ConfigSummary(config: Settings, configLocation: string): Outcome<Settings> {
    match (HasGeminiApiKey(config), HasTmdbApiKey(config), HasTmdbId(config))
    case (Returned(gemini), Returned(tmdb), Returned(tmdbId)) =>
      Returned(map[
        "model" := Get(config, "model", Str("gemini-pro")),
        "has_gemini_key" := Bool(gemini),
        "has_tmdb_key" := Bool(tmdb),
        "has_tmdb_id" := Bool(tmdbId),
        "language" := Get(config, "language", Str("Korean")),
        "extract_audio" := Get(config, "extract_audio", Bool(false)),
        "auto_fetch_tmdb" := Get(config, "auto_fetch_tmdb", Bool(true)),
        "config_location" := Str(configLocation)])
    case _ => Raised("AttributeError")
  }

  /** The summary reports the three presence checks, and fails only when one of them does. */
  lemma ConfigSummarySpec(config: Settings, configLocation: string)
    ensures var r := ConfigSummary(config, configLocation);
      && (r.Raised? <==> HasGeminiApiKey(config).Raised? || HasTmdbApiKey(config).Raised? || HasTmdbId(config).Raised?)
      && (r.Returned? ==>
            && r.value["has_gemini_key"] == Bool(HasGeminiApiKey(config).value)
            && r.value["has_tmdb_key"] == Bool(HasTmdbApiKey(config).value)
            && r.value["has_tmdb_id"] == Bool(HasTmdbId(config).value)
            && r.value["config_location"] == Str(configLocation))
  {
  }

  // ---------------------------------------------------------------------
  // The store
  // ---------------------------------------------------------------------

  /** `ConfigManager`: the current settings and where they are kept. */
  class ConfigManager {
    var config: Settings
    const configFile: string

    /** Construction loads the settings file. */
    constructor(configFile: string, file: Option<Settings>)
      ensures this.configFile == configFile
      ensures config == Loaded(file)
    {
      this.configFile := configFile;
      config := map[];
      new;
      LoadConfig(file);
    }

    /** `load_config`: the defaults merged with the file, or the defaults alone. */
    method LoadConfig(file: Option<Settings>)
      modifies this
      ensures config == Loaded(file)
    {
      if file.Some? {
        config := Defaults + file.value;
      } else {
        config := Defaults;
      }
    }

    /** `set`. */
    method Set(key: string, value: Value)
      modifies this
      ensures config == old(config)[key := value]
    {
      config := config[key := value];
    }

    /** `update`. */
    method Update(updates: Settings)
      modifies this
      ensures config == old(config) + updates
    {
      config := config + updates;
    }

    /** `reset_to_defaults`. */
    method ResetToDefaults()
      modifies this
      ensures config == Defaults
    {
      config := Defaults;
    }

    /** `import_config`: True and the merge when the file gave a dictionary; otherwise False and nothing changes. */
    method ImportConfig(file: Option<Settings>) returns (ok: bool)
      modifies this
      ensures ok <==> file.Some?
      ensures ok ==> config == Merged(file.value)
      ensures !ok ==> config == old(config)
    {
      if file.None? {
        return false;
      }
      config := Defaults + file.value;
      return true;
    }

    /** `validate_config`, appending one issue at a time. */
    method ValidateConfig() returns (issues: Outcome<seq<string>>)
      ensures issues == Validation(config)
    {
      var list: seq<string> := [];
      ghost var keyIssues: seq<string> := [];
      var hasKey := HasGeminiApiKey(config);
      if hasKey.Raised? {
        return Raised(hasKey.exception);
      }
      if !hasKey.value {
        list := list + [MissingKeyIssue];
        keyIssues := [MissingKeyIssue];
      }
      assert list == keyIssues;
      var model := Get(config, "model", Str(""));
      if !IsValidModel(model) {
        list := list + [ModelIssue(model)];
      }
      ghost var beforeLanguage := list;
      var language := Get(config, "language", Str(""));
      if !language.Str? {
        return Raised("AttributeError");
      }
      StripBlank(language.s);
      if Trim(language.s) == [] {
        list := list + [NoLanguageIssue];
      }
      assert list == beforeLanguage + (if IsBlank(language.s) then [NoLanguageIssue] else []);
      assert beforeLanguage == (if hasKey.value then [] else [MissingKeyIssue])
        + (if IsValidModel(model) then [] else [ModelIssue(model)]);
      assert Validation(config).Returned?;
      assert Validation(config).value == list;
      return Returned(list);
    }
  }
}
