/**
 * The merged configuration (internal/config/config.go) and the choice of its
 * serialisation format (internal/config/codec.go): `DetectFormat`,
 * `normalizeFormat`, and the format switch of `Marshal` and `Unmarshal`. The
 * JSON, YAML and TOML libraries themselves are not part of this model: they
 * are the fields of a `Library` value.
 */
module Codec {
  import opened Wrappers
  import opened Text

  datatype GrowthBookConfig = GrowthBookConfig(apiBaseURL: string, apiKey: string, projectID: Option<string>)

  datatype GeneratorConfig = GeneratorConfig(
    outputDir: string,
    packageName: string,
    emitTypedFeatures: bool,
    emitFeatureList: bool)

  /** `Config`: the single merged configuration. */
  datatype Config = Config(growthBook: GrowthBookConfig, generator: GeneratorConfig)

  /** `Format`: a serialisation format name. */
  type Format = string

  const FormatJSON: Format := "json"
  const FormatYAML: Format := "yaml"
  const FormatTOML: Format := "toml"

  predicate Supported(f: Format) {
    f == FormatJSON || f == FormatYAML || f == FormatTOML
  }

  /** The encoders and decoders of the three libraries; a decoder's error is its message. */
  datatype Library = Library(
    encodeJSON: Config -> Result<string>,
    encodeYAML: Config -> Result<string>,
    encodeTOML: Config -> Result<string>,
    decodeJSON: string -> Result<Config>,
    decodeYAML: string -> Result<Config>,
    decodeTOML: string -> Result<Config>)

  /** `filepath.Ext` on a slash-separated path: the suffix from the last dot of the last element, or "". */
  function Ext(path: string): string {
    if path == [] || path[|path| - 1] == '/' then ""
    else if path[|path| - 1] == '.' then "."
    else
      var e := Ext(path[..|path| - 1]);
      if e == "" then "" else e + [path[|path| - 1]]
  }

  /** `e` is a suffix of `path` starting with a dot and holding no other dot and no slash. */
  predicate DotSuffix(path: string, e: string) {
    e != "" && e[0] == '.' && HasSuffix(path, e) && '/' !in e && '.' !in e[1..]
  }

  /** A dot suffix stays one when a character other than a dot or a slash is added to both. */
  lemma DotSuffixSnoc(init: string, e: string, c: char)
    requires DotSuffix(init, e) && c != '/' && c != '.'
    ensures DotSuffix(init + [c], e + [c])
  {
    var path := init + [c];
    assert (e + [c])[1..] == e[1..] + [c];
    assert path[|path| - |e + [c]|..] == init[|init| - |e|..] + [c];
  }

  /**
   * A non-empty extension is a suffix of the path that starts with its last
   * dot and holds no other dot and no slash.
   */
  lemma {:induction false} ExtShape(path: string)
    ensures Ext(path) != "" ==> DotSuffix(path, Ext(path))
  {
    if path != [] && path[|path| - 1] == '.' {
      assert path[|path| - 1..] == ".";
    } else if path != [] && path[|path| - 1] != '/' {
      var init, c := path[..|path| - 1], path[|path| - 1];
      ExtShape(init);
      if Ext(init) != "" {
        DotSuffixSnoc(init, Ext(init), c);
        assert init + [c] == path;
      }
    }
  }

  /** The extension is empty only when the last element of the path holds no dot. */
  lemma {:induction false} ExtEmptyNoDot(path: string)
    ensures Ext(path) == "" ==> forall k :: 0 <= k < |path| && '/' !in path[k..] ==> path[k] != '.'
  {
    if path != [] && path[|path| - 1] != '/' && path[|path| - 1] != '.' {
      var init := path[..|path| - 1];
      ExtEmptyNoDot(init);
      if Ext(init) == "" {
        forall k | 0 <= k < |path| && '/' !in path[k..]
          ensures path[k] != '.'
        {
          if k < |init| {
            assert init[k..] == path[k..|init|];
            assert forall x | x in init[k..] :: x in path[k..];
          }
        }
      }
    } else if path != [] && path[|path| - 1] == '/' {
      forall k | 0 <= k < |path|
        ensures '/' in path[k..]
      {
        assert path[k..][|path| - 1 - k] == '/';
      }
    }
  }

  /** The extension of a name that ends in a dot and a dot-free, slash-free suffix is that dot and suffix. */
  lemma {:induction false} ExtOfSuffix(base: string, ext: string)
    requires '.' !in ext && '/' !in ext
    ensures Ext(base + "." + ext) == "." + ext
  {
    if ext != [] {
      var init, c := ext[..|ext| - 1], ext[|ext| - 1];
      assert c in ext;
      assert forall x | x in init :: x in ext;
      ExtOfSuffix(base, init);
      var path := base + "." + ext;
      assert path[..|path| - 1] == base + "." + init;
      assert "." + init + [c] == "." + ext;
    }
  }

  /** A path whose last element holds no dot has no extension. */
  lemma {:induction false} ExtOfDotless(dir: string, name: string)
    requires '.' !in name && '/' !in name
    requires dir == [] || dir[|dir| - 1] == '/'
    ensures Ext(dir + name) == ""
  {
    if name != [] {
      var init := name[..|name| - 1];
      assert name[|name| - 1] in name;
      assert forall x | x in init :: x in name;
      ExtOfDotless(dir, init);
      assert (dir + name)[..|dir + name| - 1] == dir + init;
    } else {
      assert dir + name == dir;
    }
  }

  /** The error for a format outside json, yaml and toml. */
  function UnsupportedFormat(f: string): string {
    "unsupported format " + Quote(f) + " (expected json|yaml|toml)"
  }

  /** `normalizeFormat`: a format name up to case and surrounding white space; "yml" is YAML. */
  function NormalizeFormat(s: string): Result<Format> {
    var l := ToLower(TrimSpace(s));
    if l == "json" then Success(FormatJSON)
    else if l == "yaml" || l == "yml" then Success(FormatYAML)
    else if l == "toml" then Success(FormatTOML)
    else Failure(UnsupportedFormat(s))
  }

  /** The format an extension names, when it names one. */
  function FormatOfExt(ext: string): Option<Format> {
    if ext == ".json" then Some(FormatJSON)
    else if ext == ".yml" || ext == ".yaml" then Some(FormatYAML)
    else if ext == ".toml" then Some(FormatTOML)
    else None
  }

  /** `DetectFormat`: the override when it is not blank, otherwise the extension, YAML by default. */
  function DetectFormat(path: string, override: string): Result<Format> {
    if TrimSpace(override) != "" then NormalizeFormat(override)
    else
      var ext := ToLower(Ext(path));
      if ext == ".json" then Success(FormatJSON)
      else if ext == ".yml" || ext == ".yaml" then Success(FormatYAML)
      else if ext == ".toml" then Success(FormatTOML)
      else if ext == "" then Success(FormatYAML)
      else Success(FormatYAML)
  }

  /** `Marshal`: the library encoder of the format, or the unsupported-format error. */
  function Marshal(cfg: Config, f: Format, lib: Library): Result<string> {
    if f == FormatJSON then lib.encodeJSON(cfg)
    else if f == FormatYAML then lib.encodeYAML(cfg)
    else if f == FormatTOML then lib.encodeTOML(cfg)
    else Failure(UnsupportedFormat(f))
  }

  /** A decoder's error, prefixed as `Unmarshal` wraps it. */
  function Wrapped(r: Result<Config>, prefix: string): Result<Config> {
    if r.Failure? then Failure(prefix + r.error) else r
  }

  /** `Unmarshal`: the library decoder of the format with its error wrapped, or the unsupported-format error. */
  function Unmarshal(b: string, f: Format, lib: Library): Result<Config> {
    if f == FormatJSON then Wrapped(lib.decodeJSON(b), "parse json config: ")
    else if f == FormatYAML then Wrapped(lib.decodeYAML(b), "parse yaml config: ")
    else if f == FormatTOML then Wrapped(lib.decodeTOML(b), "parse toml config: ")
    else Failure(UnsupportedFormat(f))
  }

  /**
   * `normalizeFormat` accepts exactly json, yaml, yml and toml up to case and
   * surrounding white space, always yields a supported format, and otherwise
   * reports the input as it was given.
   */
  lemma NormalizeFormatSpec(s: string)
    ensures NormalizeFormat(s).Success? <==> ToLower(TrimSpace(s)) in {"json", "yaml", "yml", "toml"}
    ensures NormalizeFormat(s).Success? ==> Supported(NormalizeFormat(s).value)
    ensures ToLower(TrimSpace(s)) == "yml" ==> NormalizeFormat(s) == Success(FormatYAML)
    ensures NormalizeFormat(s).Failure? ==> NormalizeFormat(s).error == UnsupportedFormat(s)
  {
  }

  /** Two spellings that agree up to case and surrounding white space name the same format. */
  lemma NormalizeFormatIgnoresCaseAndSpace(s: string, t: string)
    requires ToLower(TrimSpace(s)) == ToLower(TrimSpace(t))
    ensures NormalizeFormat(s).Success? <==> NormalizeFormat(t).Success?
    ensures NormalizeFormat(s).Success? ==> NormalizeFormat(s).value == NormalizeFormat(t).value
  {
  }

  lemma ToLowerOfLower(s: string)
    requires forall k :: 0 <= k < |s| ==> !('A' <= s[k] <= 'Z')
    ensures ToLower(s) == s
  {
  }

  /** A supported format normalises to itself. */
  lemma NormalizeFormatCanonical(f: Format)
    requires Supported(f)
    ensures NormalizeFormat(f) == Success(f)
  {
    assert TrimLeftSpace(f) == f;
    assert TrimRightSpace(f) == f;
    ToLowerOfLower(f);
  }

  /**
   * A non-blank override alone decides the format; without one the format
   * follows the lower-cased extension, and an empty or unknown extension
   * gives YAML, never an error. Whatever `DetectFormat` returns is supported.
   */
  lemma DetectFormatSpec(path: string, override: string)
    ensures TrimSpace(override) != "" ==> DetectFormat(path, override) == NormalizeFormat(override)
    ensures TrimSpace(override) == "" ==>
      DetectFormat(path, override) ==
        Success(var f := FormatOfExt(ToLower(Ext(path))); if f.Some? then f.value else FormatYAML)
    ensures DetectFormat(path, override).Success? ==> Supported(DetectFormat(path, override).value)
  {
    NormalizeFormatSpec(override);
  }

  /** Two paths that agree up to case in their extension get the same format. */
  lemma DetectFormatIgnoresExtensionCase(p: string, q: string, override: string)
    requires ToLower(Ext(p)) == ToLower(Ext(q))
    ensures DetectFormat(p, override) == DetectFormat(q, override)
  {
  }

  /** `Marshal` refuses every format but the three supported ones and defers to the library for those. */
  lemma MarshalFormatSwitch(cfg: Config, f: Format, lib: Library)
    ensures !Supported(f) ==> Marshal(cfg, f, lib) == Failure(UnsupportedFormat(f))
    ensures f == FormatJSON ==> Marshal(cfg, f, lib) == lib.encodeJSON(cfg)
    ensures f == FormatYAML ==> Marshal(cfg, f, lib) == lib.encodeYAML(cfg)
    ensures f == FormatTOML ==> Marshal(cfg, f, lib) == lib.encodeTOML(cfg)
  {
  }

  /**
   * `Unmarshal` refuses every format but the three supported ones; for those
   * it returns the library decoder's configuration, or its error prefixed
   * with the format.
   */
  lemma UnmarshalFormatSwitch(b: string, f: Format, lib: Library)
    ensures !Supported(f) ==> Unmarshal(b, f, lib) == Failure(UnsupportedFormat(f))
    ensures Supported(f) && Unmarshal(b, f, lib).Failure? ==>
      HasPrefix(Unmarshal(b, f, lib).error, "parse " + f + " config: ")
    ensures Supported(f) && Unmarshal(b, f, lib).Success? ==>
      Unmarshal(b, f, lib) == (if f == FormatJSON then lib.decodeJSON(b)
        else if f == FormatYAML then lib.decodeYAML(b) else lib.decodeTOML(b))
  {
  }

  /** "yml" is YAML whatever its case and surrounding spaces. */
  lemma NormalizeFormatYmlExample()
    ensures NormalizeFormat(" YML ") == Success(FormatYAML)
  {
    assert TrimSpace(" YML ") == "YML";
  }

  /** "xml" is refused. */
  lemma NormalizeFormatXmlExample()
    ensures NormalizeFormat("xml").Failure?
  {
    assert TrimSpace("xml") == "xml";
  }

  /** The extension decides case-insensitively. */
  lemma DetectFormatUpperCaseExample()
    ensures DetectFormat("gbgen.TOML", "") == Success(FormatTOML)
  {
    ExtOfSuffix("gbgen", "TOML");
    assert "gbgen" + "." + "TOML" == "gbgen.TOML";
  }

  /** An unknown extension gives YAML. */
  lemma DetectFormatUnknownExample()
    ensures DetectFormat("gbgen.conf", "") == Success(FormatYAML)
  {
    ExtOfSuffix("gbgen", "conf");
    assert "gbgen" + "." + "conf" == "gbgen.conf";
  }

  /** A dot in a directory name is no extension: the default YAML applies. */
  lemma DetectFormatDirDotExample()
    ensures DetectFormat("dir.d/gbgen", "") == Success(FormatYAML)
  {
    ExtOfDotless("dir.d/", "gbgen");
    assert "dir.d/" + "gbgen" == "dir.d/gbgen";
  }

  /** A non-blank override beats the extension. */
  lemma DetectFormatOverrideExample()
    ensures DetectFormat("gbgen.json", "toml") == Success(FormatTOML)
  {
    assert TrimSpace("toml") == "toml";
  }
}
