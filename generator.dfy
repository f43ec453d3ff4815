/**
 * The generator front end (internal/generator/generator.go): the API client
 * `NewGenerator` configures (normalised base URL, bearer authorisation) and
 * `Generate`, which fetches the catalog and hands it to the keys-only or the
 * typed renderer.
 */
module Generator {
  import opened Wrappers
  import opened Text
  import opened Codec
  import opened Meta
  import opened Render
  import opened KeysRender
  import opened TypedRender

  const ApiPath := "/api/v1"

  /** `Generator`: the configured client and the configuration it was built from. */
  datatype Generator = Generator(client: Client, config: Config)

  /** The base URL without trailing slashes, with "/api/v1" appended unless already there. */
  function NormalizeBaseURL(url: string): string {
    var base := TrimRightChar(url, '/');
    if HasSuffix(base, ApiPath) then base else base + ApiPath
  }

  /** The `Authorization` header value every request carries. */
  function Authorization(apiKey: string): string {
    "Bearer " + apiKey
  }

  /** `NewGenerator`: the client for the configured server and key. */
  function NewGenerator(cfg: Config): Generator {
    Generator(Client(NormalizeBaseURL(cfg.growthBook.apiBaseURL), Authorization(cfg.growthBook.apiKey)), cfg)
  }

  /** What `Generate` returns once the fetch has produced `fetched`. */
  function Outcome(cfg: Config, fetched: Result<seq<FeatureMeta>>, tc: Toolchain): Result<string> {
    if fetched.Failure? then Failure(fetched.error)
    else if cfg.generator.emitTypedFeatures then
      TypedOutcome(cfg.generator.packageName, fetched.value, cfg.generator.emitFeatureList, tc)
    else
      KeysOutcome(cfg.generator.packageName, fetched.value, cfg.generator.emitFeatureList, tc)
  }

  /**
   * `Generate`: fetches every feature through `g`'s client, returns the
   * fetch error as is, and otherwise renders with the mode the configuration
   * selects. `fetched` and `requests` record what the fetch saw.
   */
  method Generate(g: Generator, api: Api, tc: Toolchain)
    returns (r: Result<string>, ghost fetched: Result<seq<FeatureMeta>>, ghost requests: seq<Request>)
    requires PagingEnds(g.client, g.config.growthBook.projectID, api)
    ensures WellFormedLog(g.client, g.config.growthBook.projectID, api, requests)
    ensures FetchOutcome(api, requests, fetched)
    ensures r == Outcome(g.config, fetched, tc)
  {
    var features;
    features, requests := FetchAllFeatureMeta(g.client, g.config.growthBook.projectID, api);
    fetched := features;
    if features.Failure? {
      r := Failure(features.error);
    } else {
      r := RenderCatalog(g.config, features.value, tc);
    }
  }

  /** The mode dispatch of `Generate`: the typed renderer iff `EmitTypedFeatures`. */
  method RenderCatalog(cfg: Config, features: seq<FeatureMeta>, tc: Toolchain) returns (r: Result<string>)
    ensures cfg.generator.emitTypedFeatures ==>
      r == TypedOutcome(cfg.generator.packageName, features, cfg.generator.emitFeatureList, tc)
    ensures !cfg.generator.emitTypedFeatures ==>
      r == KeysOutcome(cfg.generator.packageName, features, cfg.generator.emitFeatureList, tc)
  {
    var gen := cfg.generator;
    if gen.emitTypedFeatures {
      r := RenderTypedFeaturesGo(gen.packageName, features, gen.emitFeatureList, tc);
    } else {
      r := RenderFeatureKeysGo(gen.packageName, features, gen.emitFeatureList, tc);
    }
  }

  /** Trailing characters `c` make no difference to `TrimRightChar`. */
  lemma {:induction false} TrimRightCharTail(u: string, tail: string, c: char)
    requires forall i :: 0 <= i < |tail| ==> tail[i] == c
    ensures TrimRightChar(u + tail, c) == TrimRightChar(u, c)
  {
    if tail == [] {
      assert u + tail == u;
    } else {
      var init := tail[..|tail| - 1];
      assert (u + tail)[..|u + tail| - 1] == u + init;
      TrimRightCharTail(u, init, c);
    }
  }

  /** A string already ending in "/api/v1" is left as it is. */
  lemma NormalizeKeepsApiPath(url: string)
    requires HasSuffix(url, ApiPath)
    ensures NormalizeBaseURL(url) == url
  {
    assert url[|url| - 1] == ApiPath[|ApiPath| - 1];
  }

  /**
   * The normalised URL always ends with "/api/v1", starts with the URL
   * stripped of its trailing slashes, and adds nothing else.
   */
  lemma NormalizeShape(url: string)
    ensures HasSuffix(NormalizeBaseURL(url), ApiPath)
    ensures var base := TrimRightChar(url, '/');
      && HasPrefix(NormalizeBaseURL(url), base)
      && |NormalizeBaseURL(url)| <= |base| + |ApiPath|
  {
    var base := TrimRightChar(url, '/');
    if !HasSuffix(base, ApiPath) {
      assert (base + ApiPath)[|base|..] == ApiPath;
      assert (base + ApiPath)[..|base|] == base;
    }
  }

  /** Normalising twice is normalising once. */
  lemma NormalizeIdempotent(url: string)
    ensures NormalizeBaseURL(NormalizeBaseURL(url)) == NormalizeBaseURL(url)
  {
    NormalizeShape(url);
    NormalizeKeepsApiPath(NormalizeBaseURL(url));
  }

  /** URLs that differ only in trailing slashes normalise to the same value. */
  lemma NormalizeIgnoresTrailingSlashes(url: string, slashes: string)
    requires forall i :: 0 <= i < |slashes| ==> slashes[i] == '/'
    ensures NormalizeBaseURL(url + slashes) == NormalizeBaseURL(url)
  {
    TrimRightCharTail(url, slashes, '/');
  }

  /**
   * Every request a generator built by `NewGenerator` sends goes to a base
   * URL ending in "/api/v1", carries `Authorization: Bearer <APIKey>` and
   * the configured project, and asks for pages of 100 features.
   */
  lemma NewGeneratorRequests(cfg: Config, api: Api, requests: seq<Request>)
    requires WellFormedLog(NewGenerator(cfg).client, cfg.growthBook.projectID, api, requests)
    ensures forall k :: 0 <= k < |requests| ==>
      && requests[k].baseURL == NormalizeBaseURL(cfg.growthBook.apiBaseURL)
      && HasSuffix(requests[k].baseURL, ApiPath)
      && requests[k].authorization == "Bearer " + cfg.growthBook.apiKey
      && requests[k].projectID == cfg.growthBook.projectID
      && requests[k].limit == 100
  {
    NormalizeShape(cfg.growthBook.apiBaseURL);
  }

  /**
   * A failed fetch is returned as is, whatever the mode, and nothing is
   * rendered: the outcome does not depend on the toolchain.
   */
  lemma FetchFailureNotRendered(cfg: Config, fetched: Result<seq<FeatureMeta>>, tc1: Toolchain, tc2: Toolchain)
    requires fetched.Failure?
    ensures Outcome(cfg, fetched, tc1) == Failure(fetched.error)
    ensures Outcome(cfg, fetched, tc1) == Outcome(cfg, fetched, tc2)
  {
  }

  /**
   * In typed mode, a catalog holding a feature with an undocumented value
   * type fails with the error naming the first such feature; the keys-only
   * mode never looks at value types.
   */
  lemma TypedModeUnsupported(cfg: Config, fs: seq<FeatureMeta>, tc: Toolchain)
    requires cfg.generator.emitTypedFeatures
    requires tc.renderPreamble(TypedPreamble(PackageName(cfg.generator.packageName), tc.version)).Success?
    requires !AllSupported(NamedCatalog(fs))
    ensures exists k :: (0 <= k < |fs| && AllSupported(NamedCatalog(fs)[..k]) &&
      !TypedRender.Supported(NamedCatalog(fs)[k].valueType) &&
      Outcome(cfg, Success(fs), tc) == Failure(UnsupportedError(NamedCatalog(fs)[k])))
  {
    var ns := NamedCatalog(fs);
    TypedEntriesFailsIff(ns);
    TypedEntriesFirstError(ns);
  }
}
