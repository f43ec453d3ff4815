/**
 * Building the configuration (internal/config/load.go): defaults, then the
 * config file, then the environment, then explicit overrides, each later
 * layer winning. The file read, the environment and the format libraries
 * are parameters: `read` stands for `os.ReadFile`, `env` for the process
 * environment (an absent key reads as ""), `lib` for the decoders.
 */
module Load {
  import opened Wrappers
  import opened Text
  import opened Codec

  /** `Overrides`: explicit values such as command-line flags; `None` is "not set". */
  datatype Overrides = Overrides(
    apiBaseURL: Option<string>,
    apiKey: Option<string>,
    projectID: Option<string>,
    outputDir: Option<string>,
    packageName: Option<string>,
    emitTypedFeatures: Option<bool>,
    emitFeatureList: Option<bool>)

  const NoOverrides := Overrides(None, None, None, None, None, None, None)

  datatype LoadOptions = LoadOptions(configPath: string, envPrefix: string, overrides: Overrides)

  /** The process environment. */
  type Env = map<string, string>

  /** `os.Getenv`: an unset variable reads as the empty string. */
  function Getenv(env: Env, key: string): string {
    if key in env then env[key] else ""
  }

  const DefaultBaseURL := "https://api.growthbook.io"
  const DefaultOutputDir := "./internal/growthbooktypes"
  const DefaultPackageName := "growthbooktypes"
  const DefaultEnvPrefix := "GBGEN"

  /** `Defaults`. */
  function Defaults(): Config {
    Config(
      GrowthBookConfig(DefaultBaseURL, "", None),
      GeneratorConfig(DefaultOutputDir, DefaultPackageName, false, false))
  }

  /** The extension switch of `loadFromFile`: unlike `DetectFormat`, an unknown extension is an error. */
  function ConfigFormat(ext: string): Result<Format> {
    if ext == ".json" then Success(FormatJSON)
    else if ext == ".yml" || ext == ".yaml" then Success(FormatYAML)
    else if ext == ".toml" then Success(FormatTOML)
    else Failure("unsupported config extension " + Quote(ext) + " (expected .json/.yaml/.yml/.toml)")
  }

  /** `loadFromFile`: read the file, pick the format from its lower-cased extension, decode. */
  function LoadFromFile(path: string, read: string -> Result<string>, lib: Library): Result<Config> {
    var b := read(path);
    if b.Failure? then Failure(b.error)
    else
      var f := ConfigFormat(ToLower(Ext(path)));
      if f.Failure? then Failure(f.error)
      else Unmarshal(b.value, f.value, lib)
  }

  /**
   * `merge`: the overlay's non-empty strings and set project id replace the
   * base's; a flag of the overlay can only switch the base's on.
   */
  function Merge(base: Config, overlay: Config): Config {
    var gb, og := base.growthBook, overlay.growthBook;
    var gen, on := base.generator, overlay.generator;
    Config(
      GrowthBookConfig(
        if og.apiBaseURL != "" then og.apiBaseURL else gb.apiBaseURL,
        if og.apiKey != "" then og.apiKey else gb.apiKey,
        if og.projectID.Some? then og.projectID else gb.projectID),
      GeneratorConfig(
        if on.outputDir != "" then on.outputDir else gen.outputDir,
        if on.packageName != "" then on.packageName else gen.packageName,
        if on.emitTypedFeatures then true else gen.emitTypedFeatures,
        if on.emitFeatureList then true else gen.emitFeatureList))
  }

  /** The environment prefix: the given one trimmed, or "GBGEN" when that is empty. */
  function EnvPrefix(prefix: string): string {
    var p := TrimSpace(prefix);
    if p == "" then DefaultEnvPrefix else p
  }

  function EnvKey(p: string, name: string): string {
    p + "_" + name
  }

  /** A string field after the environment: a non-empty variable replaces it. */
  function EnvString(env: Env, key: string, cur: string): string {
    var v := Getenv(env, key);
    if v != "" then v else cur
  }

  /** A flag after the environment: a non-empty variable that parses as a bool replaces it. */
  function EnvFlag(env: Env, key: string, cur: bool): bool {
    var v := Getenv(env, key);
    if v != "" then
      var b := ParseBool(v);
      if b.Some? then b.value else cur
    else cur
  }

  /** `applyEnv`. */
  function ApplyEnv(cfg: Config, env: Env, prefix: string): Config {
    var p := EnvPrefix(prefix);
    var gb, gen := cfg.growthBook, cfg.generator;
    var project := Getenv(env, EnvKey(p, "PROJECT_ID"));
    Config(
      GrowthBookConfig(
        EnvString(env, EnvKey(p, "API_BASE_URL"), gb.apiBaseURL),
        EnvString(env, EnvKey(p, "API_KEY"), gb.apiKey),
        if project != "" then Some(project) else gb.projectID),
      GeneratorConfig(
        EnvString(env, EnvKey(p, "OUTPUT_DIR"), gen.outputDir),
        EnvString(env, EnvKey(p, "PACKAGE_NAME"), gen.packageName),
        EnvFlag(env, EnvKey(p, "EMIT_TYPED_FEATURES"), gen.emitTypedFeatures),
        EnvFlag(env, EnvKey(p, "EMIT_FEATURE_LIST"), gen.emitFeatureList)))
  }

  /** The value of a field after an override: the override when it is set. */
  function Overridden<T>(o: Option<T>, cur: T): T {
    if o.Some? then o.value else cur
  }

  /** `applyOverrides`. */
  function ApplyOverrides(cfg: Config, o: Overrides): Config {
    var gb, gen := cfg.growthBook, cfg.generator;
    Config(
      GrowthBookConfig(
        Overridden(o.apiBaseURL, gb.apiBaseURL),
        Overridden(o.apiKey, gb.apiKey),
        if o.projectID.Some? then o.projectID else gb.projectID),
      GeneratorConfig(
        Overridden(o.outputDir, gen.outputDir),
        Overridden(o.packageName, gen.packageName),
        Overridden(o.emitTypedFeatures, gen.emitTypedFeatures),
        Overridden(o.emitFeatureList, gen.emitFeatureList)))
  }

  /** `Load`: a file error is returned as is; there is no validation. */
  function Load(opts: LoadOptions, env: Env, read: string -> Result<string>, lib: Library): Result<Config> {
    var file := if opts.configPath != "" then LoadFromFile(opts.configPath, read, lib) else Success(Defaults());
    if file.Failure? then Failure(file.error)
    else
      var cfg := if opts.configPath != "" then Merge(Defaults(), file.value) else Defaults();
      Success(ApplyOverrides(ApplyEnv(cfg, env, opts.envPrefix), opts.overrides))
  }

  // ---------------------------------------------------------------------
  // Precedence, field by field
  // ---------------------------------------------------------------------

  /** A configuration that sets nothing: merging it changes nothing. */
  const Blank := Config(GrowthBookConfig("", "", None), GeneratorConfig("", "", false, false))

  /** The file layer as `Load` sees it: the decoded file, or nothing when no path is given. */
  function FileLayer(opts: LoadOptions, read: string -> Result<string>, lib: Library): Result<Config> {
    if opts.configPath == "" then Success(Blank) else LoadFromFile(opts.configPath, read, lib)
  }

  /** The highest-precedence layer that sets a string field: override, environment, file, default. */
  function FirstString(over: Option<string>, envValue: string, file: string, default: string): string {
    if over.Some? then over.value
    else if envValue != "" then envValue
    else if file != "" then file
    else default
  }

  /** The project id by precedence; it has no default. */
  function FirstProject(over: Option<string>, envValue: string, file: Option<string>): Option<string> {
    if over.Some? then over
    else if envValue != "" then Some(envValue)
    else file
  }

  /**
   * A flag by precedence: an override, else a variable that parses as a
   * bool, else whether the file sets it (its default being off).
   */
  function FirstFlag(over: Option<bool>, envValue: string, file: bool): bool {
    if over.Some? then over.value
    else if ParseBool(envValue).Some? then ParseBool(envValue).value
    else file
  }

  /** The configuration the three upper layers make of a file layer. */
  function Layered(f: Config, env: Env, opts: LoadOptions): Config {
    ApplyOverrides(ApplyEnv(Merge(Defaults(), f), env, opts.envPrefix), opts.overrides)
  }

  /**
   * `Load` fails exactly when a config path is given and reading, choosing
   * the format of, or decoding that file fails, with that error; otherwise
   * it layers defaults, file, environment and overrides.
   */
  lemma LoadLayers(opts: LoadOptions, env: Env, read: string -> Result<string>, lib: Library)
    ensures Load(opts, env, read, lib).Failure? <==> FileLayer(opts, read, lib).Failure?
    ensures Load(opts, env, read, lib).Failure? ==>
      Load(opts, env, read, lib).error == FileLayer(opts, read, lib).error
    ensures Load(opts, env, read, lib).Success? ==>
      Load(opts, env, read, lib).value == Layered(FileLayer(opts, read, lib).value, env, opts)
  {
    if opts.configPath == "" {
      MergeBlank(Defaults());
    }
  }

  /**
   * Each field of the layered configuration comes from the highest layer
   * that sets it: overrides, then `<prefix>_<NAME>` variables, then the
   * file, then the defaults.
   */
  lemma LayeredPrecedence(f: Config, env: Env, opts: LoadOptions)
    ensures var c, p, o := Layered(f, env, opts), EnvPrefix(opts.envPrefix), opts.overrides;
      && c.growthBook.apiBaseURL ==
        FirstString(o.apiBaseURL, Getenv(env, EnvKey(p, "API_BASE_URL")), f.growthBook.apiBaseURL, DefaultBaseURL)
      && c.growthBook.apiKey ==
        FirstString(o.apiKey, Getenv(env, EnvKey(p, "API_KEY")), f.growthBook.apiKey, "")
      && c.growthBook.projectID ==
        FirstProject(o.projectID, Getenv(env, EnvKey(p, "PROJECT_ID")), f.growthBook.projectID)
      && c.generator.outputDir ==
        FirstString(o.outputDir, Getenv(env, EnvKey(p, "OUTPUT_DIR")), f.generator.outputDir, DefaultOutputDir)
      && c.generator.packageName ==
        FirstString(o.packageName, Getenv(env, EnvKey(p, "PACKAGE_NAME")), f.generator.packageName, DefaultPackageName)
      && c.generator.emitTypedFeatures ==
        FirstFlag(o.emitTypedFeatures, Getenv(env, EnvKey(p, "EMIT_TYPED_FEATURES")), f.generator.emitTypedFeatures)
      && c.generator.emitFeatureList ==
        FirstFlag(o.emitFeatureList, Getenv(env, EnvKey(p, "EMIT_FEATURE_LIST")), f.generator.emitFeatureList)
  {
  }

  lemma MergeBlank(base: Config)
    ensures Merge(base, Blank) == base
  {
  }

  // ---------------------------------------------------------------------
  // The layers one by one
  // ---------------------------------------------------------------------

  /**
   * `merge` leaves a base field alone when the overlay's string is empty or
   * its project id is unset, takes the overlay's otherwise, and can switch a
   * flag on but never off.
   */
  lemma MergeSpec(base: Config, overlay: Config)
    ensures var m := Merge(base, overlay);
      && (overlay.growthBook.apiBaseURL == "" ==> m.growthBook.apiBaseURL == base.growthBook.apiBaseURL)
      && (overlay.growthBook.apiBaseURL != "" ==> m.growthBook.apiBaseURL == overlay.growthBook.apiBaseURL)
      && (overlay.growthBook.apiKey == "" ==> m.growthBook.apiKey == base.growthBook.apiKey)
      && (overlay.growthBook.apiKey != "" ==> m.growthBook.apiKey == overlay.growthBook.apiKey)
      && (overlay.growthBook.projectID.None? ==> m.growthBook.projectID == base.growthBook.projectID)
      && (overlay.growthBook.projectID.Some? ==> m.growthBook.projectID == overlay.growthBook.projectID)
      && (overlay.generator.outputDir == "" ==> m.generator.outputDir == base.generator.outputDir)
      && (overlay.generator.outputDir != "" ==> m.generator.outputDir == overlay.generator.outputDir)
      && (overlay.generator.packageName == "" ==> m.generator.packageName == base.generator.packageName)
      && (overlay.generator.packageName != "" ==> m.generator.packageName == overlay.generator.packageName)
      && m.generator.emitTypedFeatures == (base.generator.emitTypedFeatures || overlay.generator.emitTypedFeatures)
      && m.generator.emitFeatureList == (base.generator.emitFeatureList || overlay.generator.emitFeatureList)
  {
  }

  /** A flag the base has switched on stays on after any merge. */
  lemma MergeNeverClearsFlags(base: Config, overlay: Config)
    ensures base.generator.emitTypedFeatures ==> Merge(base, overlay).generator.emitTypedFeatures
    ensures base.generator.emitFeatureList ==> Merge(base, overlay).generator.emitFeatureList
  {
  }

  /** Merging a configuration into itself, or merging the same overlay twice, changes nothing more. */
  lemma MergeIdempotent(base: Config, overlay: Config)
    ensures Merge(Merge(base, overlay), overlay) == Merge(base, overlay)
    ensures Merge(base, base) == base
  {
  }

  /** `applyOverrides` replaces exactly the fields whose override is set, and no override changes nothing. */
  lemma ApplyOverridesSpec(cfg: Config, o: Overrides)
    ensures var r := ApplyOverrides(cfg, o);
      && r.growthBook.apiBaseURL == (if o.apiBaseURL.Some? then o.apiBaseURL.value else cfg.growthBook.apiBaseURL)
      && r.growthBook.apiKey == (if o.apiKey.Some? then o.apiKey.value else cfg.growthBook.apiKey)
      && r.growthBook.projectID == (if o.projectID.Some? then o.projectID else cfg.growthBook.projectID)
      && r.generator.outputDir == (if o.outputDir.Some? then o.outputDir.value else cfg.generator.outputDir)
      && r.generator.packageName == (if o.packageName.Some? then o.packageName.value else cfg.generator.packageName)
      && r.generator.emitTypedFeatures ==
        (if o.emitTypedFeatures.Some? then o.emitTypedFeatures.value else cfg.generator.emitTypedFeatures)
      && r.generator.emitFeatureList ==
        (if o.emitFeatureList.Some? then o.emitFeatureList.value else cfg.generator.emitFeatureList)
    ensures ApplyOverrides(cfg, NoOverrides) == cfg
  {
  }

  /** Overriding a field with the value it already has changes nothing, and a second application changes nothing more. */
  lemma ApplyOverridesIdempotent(cfg: Config, o: Overrides)
    ensures ApplyOverrides(ApplyOverrides(cfg, o), o) == ApplyOverrides(cfg, o)
  {
  }

  /** A blank prefix means "GBGEN"; any other is used trimmed. */
  lemma EnvPrefixSpec(prefix: string)
    ensures TrimSpace(prefix) == "" ==> EnvPrefix(prefix) == "GBGEN"
    ensures TrimSpace(prefix) != "" ==> EnvPrefix(prefix) == TrimSpace(prefix)
    ensures EnvPrefix(prefix) != ""
  {
  }

  /**
   * A variable that is unset or empty, or a flag variable that does not
   * parse, leaves its field as it was; a parsed flag replaces it, even
   * `false` replacing `true`.
   */
  lemma EnvFlagSpec(env: Env, key: string, cur: bool)
    ensures ParseBool(Getenv(env, key)).None? ==> EnvFlag(env, key, cur) == cur
    ensures ParseBool(Getenv(env, key)).Some? ==> EnvFlag(env, key, cur) == ParseBool(Getenv(env, key)).value
  {
  }

  /** An environment where none of the seven variables is set to a non-empty value changes nothing. */
  lemma ApplyEnvUnset(cfg: Config, env: Env, prefix: string)
    requires var p := EnvPrefix(prefix);
      forall name | name in {"API_BASE_URL", "API_KEY", "PROJECT_ID", "OUTPUT_DIR", "PACKAGE_NAME",
                             "EMIT_TYPED_FEATURES", "EMIT_FEATURE_LIST"} :: Getenv(env, p + "_" + name) == ""
    ensures ApplyEnv(cfg, env, prefix) == cfg
  {
    var p := EnvPrefix(prefix);
    assert Getenv(env, EnvKey(p, "API_BASE_URL")) == "";
    assert Getenv(env, EnvKey(p, "API_KEY")) == "";
    assert Getenv(env, EnvKey(p, "PROJECT_ID")) == "";
    assert Getenv(env, EnvKey(p, "OUTPUT_DIR")) == "";
    assert Getenv(env, EnvKey(p, "PACKAGE_NAME")) == "";
    assert Getenv(env, EnvKey(p, "EMIT_TYPED_FEATURES")) == "";
    assert Getenv(env, EnvKey(p, "EMIT_FEATURE_LIST")) == "";
  }

  /**
   * The config file's extension, lower-cased, must be .json, .yml, .yaml or
   * .toml; when it is, it picks the same format `DetectFormat` picks without
   * an override.
   */
  lemma ConfigFormatSpec(path: string)
    ensures ConfigFormat(ToLower(Ext(path))).Success? <==> ToLower(Ext(path)) in {".json", ".yml", ".yaml", ".toml"}
    ensures ConfigFormat(ToLower(Ext(path))).Success? ==>
      Supported(ConfigFormat(ToLower(Ext(path))).value)
      && DetectFormat(path, "") == ConfigFormat(ToLower(Ext(path)))
  {
    assert TrimLeftSpace("") == "";
  }

  /**
   * `loadFromFile` returns the read error first, then the extension error,
   * and otherwise exactly what `Unmarshal` returns for the file's bytes.
   */
  lemma LoadFromFileSpec(path: string, read: string -> Result<string>, lib: Library)
    ensures read(path).Failure? ==> LoadFromFile(path, read, lib) == Failure(read(path).error)
    ensures read(path).Success? && ConfigFormat(ToLower(Ext(path))).Failure? ==>
      LoadFromFile(path, read, lib) == Failure(ConfigFormat(ToLower(Ext(path))).error)
    ensures read(path).Success? && ConfigFormat(ToLower(Ext(path))).Success? ==>
      LoadFromFile(path, read, lib) == Unmarshal(read(path).value, ConfigFormat(ToLower(Ext(path))).value, lib)
  {
  }

  // ---------------------------------------------------------------------
  // The scenarios of internal/config/load_test.go
  // ---------------------------------------------------------------------

  /** With a config path whose file loads, `Load` layers that file. */
  lemma LoadWithFile(opts: LoadOptions, env: Env, read: string -> Result<string>, lib: Library, file: Config)
    requires opts.configPath != ""
    requires LoadFromFile(opts.configPath, read, lib) == Success(file)
    ensures Load(opts, env, read, lib) == Success(Layered(file, env, opts))
  {
  }

  lemma DefaultPrefix()
    ensures EnvPrefix("") == "GBGEN"
  {
    assert TrimLeftSpace("") == "";
  }

  /**
   * A YAML file sets the base URL, key, output directory and package name;
   * `GBGEN_API_KEY` and `GBGEN_PACKAGE_NAME` then win over the file.
   */
  lemma LoadFromYamlThenEnvOverrides(tmp: string, read: string -> Result<string>, lib: Library, text: string)
    requires read(tmp + "/gbgen.yaml") == Success(text)
    requires lib.decodeYAML(text) == Success(Config(
      GrowthBookConfig("https://from-file.example", "file-key", None),
      GeneratorConfig("./file-out", "filepkg", false, false)))
    ensures var env := map[EnvKey("GBGEN", "API_KEY") := "env-key", EnvKey("GBGEN", "PACKAGE_NAME") := "envpkg"];
      var r := Load(LoadOptions(tmp + "/gbgen.yaml", "", NoOverrides), env, read, lib);
      && r.Success?
      && r.value.growthBook.apiBaseURL == "https://from-file.example"
      && r.value.growthBook.apiKey == "env-key"
      && r.value.generator.packageName == "envpkg"
  {
    var env := map[EnvKey("GBGEN", "API_KEY") := "env-key", EnvKey("GBGEN", "PACKAGE_NAME") := "envpkg"];
    var opts := LoadOptions(tmp + "/gbgen.yaml", "", NoOverrides);
    var file := lib.decodeYAML(text).value;
    AppendAssoc(tmp, "/gbgen", ".yaml");
    assert "/gbgen" + ".yaml" == "/gbgen.yaml";
    YamlFile(tmp + "/gbgen", read, lib, text);
    LoadWithFile(opts, env, read, lib, file);
    LayeredPrecedence(file, env, opts);
    DefaultPrefix();
    assert EnvKey("GBGEN", "API_BASE_URL")[6] != EnvKey("GBGEN", "PACKAGE_NAME")[6];
    assert |EnvKey("GBGEN", "API_BASE_URL")| != |EnvKey("GBGEN", "API_KEY")|;
  }

  /** The file sets the output directory, `GBGEN_OUTPUT_DIR` replaces it, and the override wins over both. */
  lemma LoadOverridesWin(tmp: string, read: string -> Result<string>, lib: Library, text: string, file: Config)
    requires read(tmp + "/gbgen.json") == Success(text)
    requires lib.decodeJSON(text) == Success(file)
    requires file.generator.outputDir == "./file"
    ensures var env := map[EnvKey("GBGEN", "OUTPUT_DIR") := "./env"];
      var o := NoOverrides.(outputDir := Some("./override"));
      var r := Load(LoadOptions(tmp + "/gbgen.json", "", o), env, read, lib);
      r.Success? && r.value.generator.outputDir == "./override"
  {
    var env := map[EnvKey("GBGEN", "OUTPUT_DIR") := "./env"];
    var opts := LoadOptions(tmp + "/gbgen.json", "", NoOverrides.(outputDir := Some("./override")));
    ExtOfSuffix(tmp + "/gbgen", "json");
    AppendAssoc(tmp, "/gbgen", ".");
    AppendAssoc(tmp, "/gbgen" + ".", "json");
    assert "/gbgen" + "." + "json" == "/gbgen.json";
    LoadWithFile(opts, env, read, lib, file);
    LayeredPrecedence(file, env, opts);
  }

  /** A typed-features switch the YAML file turns on is turned off again by the variable `GBGEN_EMIT_TYPED_FEATURES` set to "false". */
  lemma LoadTypedFileTrueEnvFalseWins(tmp: string, read: string -> Result<string>, lib: Library, text: string, file: Config)
    requires read(tmp + "/gbgen.yaml") == Success(text)
    requires lib.decodeYAML(text) == Success(file)
    requires file.generator.emitTypedFeatures
    ensures var r := Load(LoadOptions(tmp + "/gbgen.yaml", "", NoOverrides),
      map[EnvKey("GBGEN", "EMIT_TYPED_FEATURES") := "false"], read, lib);
      r.Success? && !r.value.generator.emitTypedFeatures
  {
    var env := map[EnvKey("GBGEN", "EMIT_TYPED_FEATURES") := "false"];
    var opts := LoadOptions(tmp + "/gbgen.yaml", "", NoOverrides);
    AppendAssoc(tmp, "/gbgen", ".yaml");
    assert "/gbgen" + ".yaml" == "/gbgen.yaml";
    YamlFile(tmp + "/gbgen", read, lib, text);
    LoadWithFile(opts, env, read, lib, file);
    LayeredPrecedence(file, env, opts);
    DefaultPrefix();
  }

  /** A feature-list switch the YAML file turns on is turned off again by the variable `GBGEN_EMIT_FEATURE_LIST` set to "false". */
  lemma LoadListFileTrueEnvFalseWins(tmp: string, read: string -> Result<string>, lib: Library, text: string, file: Config)
    requires read(tmp + "/gbgen.yaml") == Success(text)
    requires lib.decodeYAML(text) == Success(file)
    requires file.generator.emitFeatureList
    ensures var r := Load(LoadOptions(tmp + "/gbgen.yaml", "", NoOverrides),
      map[EnvKey("GBGEN", "EMIT_FEATURE_LIST") := "false"], read, lib);
      r.Success? && !r.value.generator.emitFeatureList
  {
    var env := map[EnvKey("GBGEN", "EMIT_FEATURE_LIST") := "false"];
    var opts := LoadOptions(tmp + "/gbgen.yaml", "", NoOverrides);
    AppendAssoc(tmp, "/gbgen", ".yaml");
    assert "/gbgen" + ".yaml" == "/gbgen.yaml";
    YamlFile(tmp + "/gbgen", read, lib, text);
    LoadWithFile(opts, env, read, lib, file);
    LayeredPrecedence(file, env, opts);
    DefaultPrefix();
  }

  /** A `.yaml` path that reads is decoded as YAML. */
  lemma YamlFile(base: string, read: string -> Result<string>, lib: Library, text: string)
    requires read(base + ".yaml") == Success(text)
    ensures LoadFromFile(base + ".yaml", read, lib) == Wrapped(lib.decodeYAML(text), "parse yaml config: ")
  {
    ExtOfSuffix(base, "yaml");
    assert base + "." + "yaml" == base + ".yaml";
  }
}
