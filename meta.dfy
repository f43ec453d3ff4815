/**
 * Catalog fetch and naming (internal/generator/meta.go): the paging loop over
 * the Features API, the "no active environments" flag, the sort by id and the
 * synthesis of de-duplicated `Feature<PascalCase>` names.
 */
module Meta {
  import opened Wrappers
  import opened Text
  import opened Identifiers

  /** Go's `int32`, the type of the API's `limit`, `offset` and `nextOffset`. */
  newtype int32 = x: int | -0x8000_0000 <= x < 0x8000_0000

  /** `growthbookapi.FeatureValueType`: a string that the API fills in. */
  type ValueType = string

  datatype FeatureEnvironment = FeatureEnvironment(enabled: bool)

  /** One feature of a `ListFeatures` page, with the fields the generator reads. */
  datatype ApiFeature = ApiFeature(
    id: string,
    description: string,
    environments: map<string, FeatureEnvironment>,
    valueType: ValueType)

  /** `featureMeta`. */
  datatype FeatureMeta = FeatureMeta(
    id: string,
    description: string,
    noActiveEnvs: bool,
    valueType: ValueType)

  /** `namedFeature`: a feature with its synthesized identifier. */
  datatype NamedFeature = NamedFeature(
    name: string,
    id: string,
    description: string,
    noActiveEnvs: bool,
    valueType: ValueType)

  /**
   * The configured API client: the base URL every request goes to and the
   * value of the `Authorization` header its request editor sets.
   */
  datatype Client = Client(baseURL: string, authorization: string)

  /** One `ListFeatures` call as it reaches the server. */
  datatype Request = Request(
    baseURL: string,
    authorization: string,
    limit: int32,
    offset: int32,
    projectID: Option<string>)

  /** What a `ListFeatures` call gives back: an error, a nil payload, or a page. */
  datatype Response =
    | ApiError(message: string)
    | NilResponse
    | Page(features: seq<ApiFeature>, hasMore: bool, nextOffset: int32)

  /** The server: a deterministic answer to every request. */
  type Api = Request -> Response

  const PageLimit: int32 := 100
  const EmptyResponseError := "list features: empty response"

  /** The request sent for a given offset. */
  function ListRequest(client: Client, projectID: Option<string>, offset: int32): Request {
    Request(client.baseURL, client.authorization, PageLimit, offset, projectID)
  }

  /** A response after which the loop asks for another page. */
  predicate Continues(r: Response) {
    r.Page? && r.hasMore
  }

  /** The offset of the k-th request when every earlier response continued the paging. */
  function OffsetAt(client: Client, projectID: Option<string>, api: Api, k: nat): int32 {
    if k == 0 then 0
    else
      var prev := api(ListRequest(client, projectID, OffsetAt(client, projectID, api, k - 1)));
      if prev.Page? then prev.nextOffset else 0
  }

  /** The server eventually answers the chain of requests with an error or a last page. */
  ghost predicate PagingEnds(client: Client, projectID: Option<string>, api: Api) {
    exists n: nat :: !Continues(api(ListRequest(client, projectID, OffsetAt(client, projectID, api, n))))
  }

  /** True iff no environment is enabled (vacuously so when there are none). */
  predicate NoActiveEnvironments(envs: map<string, FeatureEnvironment>) {
    forall name | name in envs :: !envs[name].enabled
  }

  /** `featureHasNoActiveEnvironments`: an early `false` on the first enabled environment. */
  method FeatureHasNoActiveEnvironments(envs: map<string, FeatureEnvironment>) returns (r: bool)
    ensures |envs| == 0 ==> r
    ensures r <==> NoActiveEnvironments(envs)
  {
    if |envs| == 0 {
      return true;
    }
    var remaining := envs.Keys;
    while remaining != {}
      invariant remaining <= envs.Keys
      invariant forall name | name in envs.Keys - remaining :: !envs[name].enabled
      decreases remaining
    {
      var name :| name in remaining;
      if envs[name].enabled {
        return false;
      }
      remaining := remaining - {name};
    }
    return true;
  }

  function ToMeta(f: ApiFeature): FeatureMeta {
    FeatureMeta(f.id, f.description, NoActiveEnvironments(f.environments), f.valueType)
  }

  /** The entries one page contributes: its features with a non-empty id, in page order. */
  function Convert(fs: seq<ApiFeature>): (r: seq<FeatureMeta>)
    ensures forall m | m in r :: m.id != ""
    ensures |r| <= |fs|
  {
    if fs == [] then []
    else
      var last := fs[|fs| - 1];
      Convert(fs[..|fs| - 1]) + (if last.id != "" then [ToMeta(last)] else [])
  }

  /** Everything collected from the pages answering `requests`, in request order. */
  function CollectedFrom(api: Api, requests: seq<Request>): seq<FeatureMeta> {
    if requests == [] then []
    else
      var last := api(requests[|requests| - 1]);
      CollectedFrom(api, requests[..|requests| - 1]) + (if last.Page? then Convert(last.features) else [])
  }

  /** Ascending by id, Go's string order. */
  predicate SortedById(s: seq<FeatureMeta>) {
    forall p, q :: 0 <= p < q < |s| ==> LessEq(s[p].id, s[q].id)
  }

  /** A shape that the request log of one fetch always has. */
  predicate WellFormedLog(client: Client, projectID: Option<string>, api: Api, requests: seq<Request>) {
    && |requests| >= 1
    && requests[0].offset == 0
    && (forall k :: 0 <= k < |requests| ==> requests[k] == ListRequest(client, projectID, requests[k].offset))
    && (forall k :: 0 <= k < |requests| - 1 ==>
          Continues(api(requests[k])) && requests[k + 1].offset == api(requests[k]).nextOffset)
    && !Continues(api(requests[|requests| - 1]))
  }

  /** Every request of `requests` is the one for its position and was answered with a page that has more. */
  ghost predicate ContinuingLog(client: Client, projectID: Option<string>, api: Api, requests: seq<Request>) {
    forall j :: 0 <= j < |requests| ==>
      requests[j] == ListRequest(client, projectID, OffsetAt(client, projectID, api, j)) && Continues(api(requests[j]))
  }

  /** Appending the next request to a continuing log: it either continues or completes a well-formed log. */
  lemma LogExtends(client: Client, projectID: Option<string>, api: Api, requests: seq<Request>, req: Request)
    requires ContinuingLog(client, projectID, api, requests)
    requires req == ListRequest(client, projectID, OffsetAt(client, projectID, api, |requests|))
    ensures Continues(api(req)) ==> ContinuingLog(client, projectID, api, requests + [req])
    ensures !Continues(api(req)) ==> WellFormedLog(client, projectID, api, requests + [req])
    ensures CollectedFrom(api, requests + [req]) ==
      CollectedFrom(api, requests) + (if api(req).Page? then Convert(api(req).features) else [])
  {
    var log := requests + [req];
    assert log[..|requests|] == requests;
    forall k | 0 <= k < |log| - 1
      ensures log[k + 1].offset == api(log[k]).nextOffset
    {
      assert log[k] == ListRequest(client, projectID, OffsetAt(client, projectID, api, k));
    }
    if |requests| == 0 {
      assert log[0].offset == 0;
    } else {
      assert log[0] == requests[0];
    }
  }

  /**
   * The result of a fetch whose request log is `requests`: the last response's
   * error, the empty-response error, or the sorted collected entries.
   */
  predicate FetchOutcome(api: Api, requests: seq<Request>, r: Result<seq<FeatureMeta>>)
    requires requests != []
  {
    match api(requests[|requests| - 1])
    case ApiError(msg) => r == Failure(msg)
    case NilResponse => r == Failure(EmptyResponseError)
    case Page(_, _, _) =>
      r.Success? && SortedById(r.value) && multiset(r.value) == multiset(CollectedFrom(api, requests))
  }

  lemma LessImpliesNotGreater(a: string, b: string)
    requires Less(a, b)
    ensures LessEq(a, b)
  {
    if Less(b, a) {
      LessTransitive(a, b, a);
      LessIrreflexive(a);
    }
  }

  /** Exchanges two entries. */
  method Swap(a: array<FeatureMeta>, i: nat, j: nat)
    requires i < j < a.Length
    modifies a
    ensures a[i] == old(a[j]) && a[j] == old(a[i])
    ensures forall k :: 0 <= k < a.Length && k != i && k != j ==> a[k] == old(a[k])
    ensures multiset(a[..]) == multiset(old(a[..]))
  {
    a[i], a[j] := a[j], a[i];
  }

  /** Moves `a[i]` left past every larger entry, so that `a[..i + 1]` becomes sorted. */
  method InsertLast(a: array<FeatureMeta>, i: nat)
    requires i < a.Length
    requires SortedById(a[..i])
    modifies a
    ensures SortedById(a[..i + 1])
    ensures multiset(a[..]) == multiset(old(a[..]))
  {
    var j := i;
    while j > 0 && Less(a[j].id, a[j - 1].id)
      invariant 0 <= j <= i
      invariant multiset(a[..]) == multiset(old(a[..]))
      invariant forall p, q :: 0 <= p < q < j ==> LessEq(a[p].id, a[q].id)
      invariant forall p, q :: j <= p < q <= i ==> LessEq(a[p].id, a[q].id)
      invariant forall p, q :: 0 <= p < j < q <= i ==> LessEq(a[p].id, a[q].id)
    {
      LessImpliesNotGreater(a[j].id, a[j - 1].id);
      Swap(a, j - 1, j);
      j := j - 1;
    }
    forall p | 0 <= p < j - 1
      ensures LessEq(a[p].id, a[j].id)
    {
      LessEqTransitive(a[p].id, a[j - 1].id, a[j].id);
    }
  }

  /** `sort.Slice(out, ... out[i].ID < out[j].ID)`, as an insertion sort in place. */
  method SortById(a: array<FeatureMeta>)
    modifies a
    ensures SortedById(a[..])
    ensures multiset(a[..]) == multiset(old(a[..]))
  {
    for i := 0 to a.Length
      invariant SortedById(a[..i])
      invariant multiset(a[..]) == multiset(old(a[..]))
    {
      InsertLast(a, i);
    }
    assert a[..a.Length] == a[..];
  }

  /** The body of the paging loop for one page: skip empty ids, compute the flag, keep page order. */
  method ConvertPage(features: seq<ApiFeature>) returns (page: seq<FeatureMeta>)
    ensures page == Convert(features)
  {
    page := [];
    for i := 0 to |features|
      invariant page == Convert(features[..i])
    {
      var f := features[i];
      assert features[..i + 1][..i] == features[..i];
      if f.id == "" {
        continue;
      }
      var noActive := FeatureHasNoActiveEnvironments(f.environments);
      page := page + [FeatureMeta(f.id, f.description, noActive, f.valueType)];
    }
    assert features[..|features|] == features;
  }

  /**
   * `fetchAllFeatureMeta`: pages through `ListFeatures` with limit 100 from
   * offset 0, following `NextOffset` until a page says `HasMore == false`;
   * the first error aborts the fetch; the collected entries are sorted by id.
   * `requests` is the log of the calls made.
   */
  method FetchAllFeatureMeta(client: Client, projectID: Option<string>, api: Api)
    returns (r: Result<seq<FeatureMeta>>, ghost requests: seq<Request>)
    requires PagingEnds(client, projectID, api)
    ensures WellFormedLog(client, projectID, api, requests)
    ensures FetchOutcome(api, requests, r)
  {
    ghost var n: nat :| !Continues(api(ListRequest(client, projectID, OffsetAt(client, projectID, api, n))));
    ghost var k: nat := 0;
    var offset: int32 := 0;
    var out: seq<FeatureMeta> := [];
    requests := [];
    while true
      invariant k <= n && |requests| == k
      invariant offset == OffsetAt(client, projectID, api, k)
      invariant ContinuingLog(client, projectID, api, requests)
      invariant out == CollectedFrom(api, requests)
      decreases n - k
    {
      var req := ListRequest(client, projectID, offset);
      var resp := api(req);
      LogExtends(client, projectID, api, requests, req);
      requests := requests + [req];
      if resp.ApiError? {
        return Failure(resp.message), requests;
      }
      if resp.NilResponse? {
        return Failure(EmptyResponseError), requests;
      }
      var page := ConvertPage(resp.features);
      out := out + page;
      if !resp.hasMore {
        break;
      }
      offset := resp.nextOffset;
      k := k + 1;
    }
    var a := new FeatureMeta[|out|](i requires 0 <= i < |out| => out[i]);
    assert a[..] == out;
    SortById(a);
    r := Success(a[..]);
  }

  /** The name every occurrence of an id starts from: `"Feature" + toExportedIdentifier(id)`. */
  function BaseName(id: string): string {
    "Feature" + ExportedIdentifier(id)
  }

  /** The base names of a catalog, in catalog order. */
  function Bases(fs: seq<FeatureMeta>): (bs: seq<string>)
    ensures |bs| == |fs|
    ensures forall i :: 0 <= i < |fs| ==> bs[i] == BaseName(fs[i].id)
  {
    if fs == [] then [] else [BaseName(fs[0].id)] + Bases(fs[1..])
  }

  /** The name of the k-th occurrence of a base name: the base itself, then `_2`, `_3`, .... */
  function DedupedName(base: string, k: nat): string {
    if k <= 1 then base else base + "_" + Itoa(k)
  }

  /** The name of the i-th of a sequence of base names: its number of occurrences so far picks the suffix. */
  function DedupedAt(bs: seq<string>, i: nat): string
    requires i < |bs|
  {
    DedupedName(bs[i], multiset(bs[..i + 1])[bs[i]])
  }

  /** The name `nameAndDedupe` gives the i-th feature of the catalog. */
  function NameAt(fs: seq<FeatureMeta>, i: nat): string
    requires i < |fs|
  {
    DedupedAt(Bases(fs), i)
  }

  /** A catalog entry under a given name, every other field copied. */
  function Renamed(f: FeatureMeta, name: string): NamedFeature {
    NamedFeature(name, f.id, f.description, f.noActiveEnvs, f.valueType)
  }

  /** The list `nameAndDedupe` returns for a catalog. */
  function NamedCatalog(fs: seq<FeatureMeta>): seq<NamedFeature> {
    seq(|fs|, i requires 0 <= i < |fs| => Renamed(fs[i], NameAt(fs, i)))
  }

  /** The counter map read with Go's zero value for a missing key. */
  function CountOf(counts: map<string, nat>, b: string): nat {
    if b in counts then counts[b] else 0
  }

  /** The counter map holds how often each base name occurs in `bs`. */
  ghost predicate Counted(counts: map<string, nat>, bs: seq<string>) {
    forall b :: CountOf(counts, b) == multiset(bs)[b]
  }

  /**
   * `nameAndDedupe`: one named feature per entry, in order, fields copied; the
   * k-th occurrence of a base name gets the suffix `_k` (the first keeps it).
   */
  method NameAndDedupe(features: seq<FeatureMeta>) returns (out: seq<NamedFeature>)
    ensures out == NamedCatalog(features)
    ensures |out| == |features|
    ensures forall i :: 0 <= i < |features| ==> out[i] == Renamed(features[i], NameAt(features, i))
    ensures forall i, j :: 0 <= i < j < |out| ==> out[i].name != out[j].name
  {
    var nameCounts: map<string, nat> := map[];
    out := [];
    ghost var bs := Bases(features);
    for i := 0 to |features|
      invariant |out| == i
      invariant Counted(nameCounts, bs[..i])
      invariant forall j :: 0 <= j < i ==> out[j] == Renamed(features[j], DedupedAt(bs, j))
    {
      var f := features[i];
      var ident := ToExportedIdentifier(f.id);
      var baseName := "Feature" + ident;
      assert baseName == bs[i];
      CountStep(bs, i, nameCounts);
      nameCounts := nameCounts[baseName := CountOf(nameCounts, baseName) + 1];
      assert nameCounts[baseName] == multiset(bs[..i + 1])[bs[i]] by {
        assert CountOf(nameCounts, baseName) == multiset(bs[..i + 1])[baseName];
      }
      var name := baseName;
      if nameCounts[baseName] > 1 {
        name := baseName + "_" + Itoa(nameCounts[baseName]);
      }
      assert name == DedupedAt(bs, i);
      ghost var prev := out;
      out := out + [NamedFeature(name, f.id, f.description, f.noActiveEnvs, f.valueType)];
      forall j | 0 <= j < i + 1
        ensures out[j] == Renamed(features[j], DedupedAt(bs, j))
      {
        if j < i {
          assert out[j] == prev[j];
        }
      }
    }
    NamesPairwiseDistinct(features);
  }

  /** One step of the counter map: after counting `bs[i]`, it holds the counts of `bs[..i + 1]`. */
  lemma CountStep(bs: seq<string>, i: nat, counts: map<string, nat>)
    requires i < |bs|
    requires Counted(counts, bs[..i])
    ensures Counted(counts[bs[i] := CountOf(counts, bs[i]) + 1], bs[..i + 1])
  {
    assert bs[..i + 1] == bs[..i] + [bs[i]];
  }

  lemma BaseNameShape(id: string)
    ensures '_' !in BaseName(id)
  {
    ExportedIdentifierShape(id);
    var e := ExportedIdentifier(id);
    forall k | 0 <= k < |BaseName(id)|
      ensures BaseName(id)[k] != '_'
    {
      if k >= 7 {
        assert BaseName(id)[k] == e[k - 7];
      }
    }
  }

  /** A name determines its base and its occurrence number, since bases hold no `_`. */
  lemma {:induction false} DedupedNameInjective(b1: string, k1: nat, b2: string, k2: nat)
    requires '_' !in b1 && '_' !in b2 && k1 >= 1 && k2 >= 1
    requires DedupedName(b1, k1) == DedupedName(b2, k2)
    ensures b1 == b2 && k1 == k2
  {
    var n := DedupedName(b1, k1);
    if k1 > 1 && k2 > 1 {
      assert n[|b1|] == '_' && n[|b2|] == '_';
      assert b1 == n[..|b1|] == b2;
      assert Itoa(k1) == n[|b1| + 1..] == Itoa(k2);
      ItoaInjective(k1, k2);
    }
  }

  /** A later occurrence of a base name has a higher occurrence count. */
  lemma CountGrows(bs: seq<string>, i: nat, j: nat)
    requires i < j < |bs| && bs[i] == bs[j]
    ensures multiset(bs[..i + 1])[bs[i]] >= 1
    ensures multiset(bs[..j + 1])[bs[j]] > multiset(bs[..i + 1])[bs[i]]
  {
    assert bs[..i + 1] == bs[..i] + [bs[i]];
    assert bs[..j + 1] == bs[..i + 1] + bs[i + 1..j + 1];
    assert bs[j] in bs[i + 1..j + 1];
  }

  /** Over base names without `_`, the de-duplicated names are pairwise distinct. */
  lemma DedupedAtDistinct(bs: seq<string>, i: nat, j: nat)
    requires i < j < |bs|
    requires '_' !in bs[i] && '_' !in bs[j]
    ensures DedupedAt(bs, i) != DedupedAt(bs, j)
  {
    var ki, kj := multiset(bs[..i + 1])[bs[i]], multiset(bs[..j + 1])[bs[j]];
    assert bs[..i + 1] == bs[..i] + [bs[i]];
    assert bs[..j + 1] == bs[..j] + [bs[j]];
    if DedupedAt(bs, i) == DedupedAt(bs, j) {
      DedupedNameInjective(bs[i], ki, bs[j], kj);
      CountGrows(bs, i, j);
    }
  }

  /** All synthesized names are pairwise distinct. */
  lemma NamesPairwiseDistinct(fs: seq<FeatureMeta>)
    ensures forall i, j :: 0 <= i < j < |fs| ==> NameAt(fs, i) != NameAt(fs, j)
  {
    var bs := Bases(fs);
    forall i, j | 0 <= i < j < |fs|
      ensures NameAt(fs, i) != NameAt(fs, j)
    {
      BaseNameShape(fs[i].id);
      BaseNameShape(fs[j].id);
      DedupedAtDistinct(bs, i, j);
    }
  }

  /** Every de-duplicated name starts with its base name. */
  lemma DedupedNamePrefix(base: string, k: nat)
    ensures HasPrefix(DedupedName(base, k), base)
  {
    if k > 1 {
      assert (base + "_" + Itoa(k))[..|base|] == base;
    }
  }

  /** Every synthesized name starts with `Feature`. */
  lemma NameAtShape(fs: seq<FeatureMeta>, i: nat)
    requires i < |fs|
    ensures HasPrefix(NameAt(fs, i), "Feature")
  {
    var bs := Bases(fs);
    var b := bs[i];
    DedupedNamePrefix(b, multiset(bs[..i + 1])[b]);
    var n := NameAt(fs, i);
    assert b[..7] == "Feature";
    assert n[..7] == b[..7];
  }

  /** A base name absent from the earlier ones is counted once. */
  lemma CountFirst(bs: seq<string>, i: nat)
    requires i < |bs| && bs[i] !in bs[..i]
    ensures multiset(bs[..i + 1])[bs[i]] == 1
  {
    assert bs[..i + 1] == bs[..i] + [bs[i]];
    assert bs[i] !in multiset(bs[..i]);
  }

  /** The first occurrence of a base name keeps it unchanged. */
  lemma NameAtFirstOccurrence(fs: seq<FeatureMeta>, i: nat)
    requires i < |fs|
    requires forall j | 0 <= j < i :: BaseName(fs[j].id) != BaseName(fs[i].id)
    ensures NameAt(fs, i) == BaseName(fs[i].id)
  {
    var bs := Bases(fs);
    assert bs[i] !in bs[..i] by {
      forall j | 0 <= j < i
        ensures bs[..i][j] != bs[i]
      {
        assert bs[..i][j] == BaseName(fs[j].id);
      }
    }
    CountFirst(bs, i);
  }

  /** Two features with the same base name: the first keeps it, the second gets `_2`. */
  lemma SameBaseTwice(fs: seq<FeatureMeta>)
    requires |fs| == 2 && BaseName(fs[0].id) == BaseName(fs[1].id)
    ensures NameAt(fs, 0) == BaseName(fs[0].id)
    ensures NameAt(fs, 1) == BaseName(fs[0].id) + "_2"
  {
    var bs := Bases(fs);
    var b := bs[0];
    assert bs[..1] == [b];
    assert bs[..2] == [b, b];
    assert multiset([b, b])[b] == 2;
    assert Itoa(2) == [DigitChar(2)];
  }

  /** The ids "a-b" and "a_b" share the base name `FeatureAB`: the first keeps it, the second gets `_2`. */
  lemma DedupeExample(f1: FeatureMeta, f2: FeatureMeta)
    requires f1.id == "a-b" && f2.id == "a_b"
    ensures NameAt([f1, f2], 0) == "FeatureAB"
    ensures NameAt([f1, f2], 1) == "FeatureAB_2"
  {
    TwoTokens('a', '-', 'b');
    TwoTokens('a', '_', 'b');
    assert f1.id == ['a', '-', 'b'] && f2.id == ['a', '_', 'b'];
    assert CapitalizedJoin(["a", "b"]) == "AB";
    SameBaseTwice([f1, f2]);
  }
}
