/**
 * The typed renderer (`renderTypedFeaturesGo` and `typedFeatureTypeExpr`,
 * internal/generator/typed.go): one typed helper variable per feature inside
 * `var (...)`, whose wrapper type follows the feature's value type, and an
 * optional `FeatureKey` type with a `FeatureList` of every id. A feature with
 * a value type outside the four known ones aborts the rendering.
 */
module TypedRender {
  import opened Wrappers
  import opened Text
  import opened Meta
  import opened Render

  const TypesImport := "github.com/eastnine90/gbgen/types"
  const KeyTypeLines: seq<string> := ["type FeatureKey string", ""]
  const VarOpen := "var ("

  /** The four value types the API documents. */
  predicate Supported(vt: ValueType) {
    vt == "boolean" || vt == "string" || vt == "number" || vt == "json"
  }

  /** `typedFeatureTypeExpr`: the wrapper type of a value type, or an error naming it. */
  function TypeExpr(vt: ValueType): Result<string> {
    if vt == "boolean" then Success("types.BooleanFeature")
    else if vt == "string" then Success("types.StringFeature")
    else if vt == "number" then Success("types.NumberFeature")
    else if vt == "json" then Success("types.JSONFeature")
    else Failure("unsupported valueType " + Quote(vt))
  }

  /** The value type a wrapper type stands for: the reverse of `TypeExpr`. */
  function WrappedValueType(expr: string): Option<ValueType> {
    if expr == "types.BooleanFeature" then Some("boolean")
    else if expr == "types.StringFeature" then Some("string")
    else if expr == "types.NumberFeature" then Some("number")
    else if expr == "types.JSONFeature" then Some("json")
    else None
  }

  /**
   * Exactly the four documented value types have a wrapper, each its own
   * (reading the value type back from the wrapper gives it again), and any
   * other value type fails with an error that quotes it.
   */
  lemma TypeExprRoundTrip(vt: ValueType)
    ensures TypeExpr(vt).Success? <==> Supported(vt)
    ensures TypeExpr(vt).Success? ==> WrappedValueType(TypeExpr(vt).value) == Some(vt)
    ensures TypeExpr(vt).Failure? ==> TypeExpr(vt).error == "unsupported valueType " + Quote(vt)
  {
  }

  /** Every wrapper type that stands for a value type is the one `TypeExpr` gives it. */
  lemma WrappedValueTypeRoundTrip(expr: string)
    ensures WrappedValueType(expr).Some? ==> TypeExpr(WrappedValueType(expr).value) == Success(expr)
  {
  }

  /** The preamble options of the typed file: the `types` package import and a usage example. */
  function TypedPreamble(pkgName: string, version: string): PreambleOptions {
    PreambleOptions(
      pkgName,
      version,
      [ "Package " + pkgName + " contains generated GrowthBook typed feature helpers.",
        "",
        "Example:",
        "\timport " + Quote("path/to/your/generated/" + pkgName),
        "\timport \"github.com/growthbook/growthbook-golang\"",
        "",
        "\tres, err := FeatureExample.Evaluate(ctx, client)",
        "\t_ = res; _ = err"],
      [TypesImport])
  }

  /** `<Name> = <wrapper>("<id>")`. */
  function TypedDecl(n: NamedFeature, expr: string): string {
    "\t" + n.name + " = " + expr + "(" + Quote(n.id) + ")"
  }

  /** The error a feature with an unsupported value type aborts the rendering with. */
  function FeatureError(n: NamedFeature, err: string): string {
    "feature " + Quote(n.id) + ": " + err
  }

  /**
   * The lines of the `var` block for the features, in order, or the error of
   * the first feature whose value type has no wrapper.
   */
  function TypedEntries(ns: seq<NamedFeature>): Result<seq<string>> {
    if ns == [] then Success([])
    else
      var last := ns[|ns| - 1];
      var prev := TypedEntries(ns[..|ns| - 1]);
      if prev.Failure? then prev
      else
        var e := TypeExpr(last.valueType);
        if e.Failure? then Failure(FeatureError(last, e.error))
        else Success(prev.value + EntryComments(last) + [TypedDecl(last, e.value)])
  }

  /** The lines of the `FeatureList` literal, one `FeatureKey("<id>")` per feature, in order. */
  function TypedListItems(ns: seq<NamedFeature>): (r: seq<string>)
    ensures |r| == |ns|
    ensures forall k :: 0 <= k < |ns| ==> r[k] == "\tFeatureKey(" + Quote(ns[k].id) + "),"
  {
    if ns == [] then [] else TypedListItems(ns[..|ns| - 1]) + ["\tFeatureKey(" + Quote(ns[|ns| - 1].id) + "),"]
  }

  function TypedListBlock(ns: seq<NamedFeature>): seq<string> {
    ["", ListOpen] + TypedListItems(ns) + ["}"]
  }

  /** The opening lines: the `FeatureKey` type only when the list is emitted, then `var (`. */
  function TypedHead(emitList: bool): seq<string> {
    if emitList then KeyTypeLines + [VarOpen] else [VarOpen]
  }

  /** The buffer after the preamble, given the rendered entries. */
  function TypedBody(ns: seq<NamedFeature>, entries: seq<string>, emitList: bool): seq<string> {
    var front := TypedHead(emitList) + entries + [")"];
    if emitList then front + TypedListBlock(ns) else front
  }

  /** What `renderTypedFeaturesGo` returns for a catalog. */
  function TypedOutcome(pkg: string, features: seq<FeatureMeta>, emitList: bool, tc: Toolchain): Result<string> {
    var pre := tc.renderPreamble(TypedPreamble(PackageName(pkg), tc.version));
    if pre.Failure? then Failure(pre.error)
    else
      var ns := NamedCatalog(features);
      var entries := TypedEntries(ns);
      if entries.Failure? then Failure(entries.error)
      else tc.formatGo(pre.value + Unlines(TypedBody(ns, entries.value, emitList)))
  }

  /** Once a prefix of the features fails, the whole rendering fails with the same error. */
  lemma {:induction false} TypedEntriesPrefixFailure(ns: seq<NamedFeature>, i: nat)
    requires i <= |ns|
    requires TypedEntries(ns[..i]).Failure?
    ensures TypedEntries(ns) == TypedEntries(ns[..i])
    decreases |ns| - i
  {
    if i < |ns| {
      assert ns[..i + 1][..i] == ns[..i];
      TypedEntriesPrefixFailure(ns, i + 1);
    } else {
      assert ns[..i] == ns;
    }
  }

  /** All features have a documented value type. */
  predicate AllSupported(ns: seq<NamedFeature>) {
    forall k :: 0 <= k < |ns| ==> Supported(ns[k].valueType)
  }

  /** The error of a feature whose value type has no wrapper. */
  function UnsupportedError(n: NamedFeature): string {
    FeatureError(n, "unsupported valueType " + Quote(n.valueType))
  }

  /** How `TypedEntries` of a non-empty catalog follows from that of all but its last feature. */
  lemma TypedEntriesLast(ns: seq<NamedFeature>)
    requires ns != []
    ensures var init, last := ns[..|ns| - 1], ns[|ns| - 1];
      && (TypedEntries(init).Failure? ==> TypedEntries(ns) == TypedEntries(init))
      && (TypedEntries(init).Success? && !Supported(last.valueType) ==>
            TypedEntries(ns) == Failure(UnsupportedError(last)))
      && (TypedEntries(init).Success? && Supported(last.valueType) ==> TypedEntries(ns).Success?)
  {
    TypeExprRoundTrip(ns[|ns| - 1].valueType);
  }

  /** A catalog is all supported exactly when all but its last feature are and the last one is. */
  lemma AllSupportedLast(ns: seq<NamedFeature>)
    requires ns != []
    ensures AllSupported(ns) <==> AllSupported(ns[..|ns| - 1]) && Supported(ns[|ns| - 1].valueType)
  {
    var init := ns[..|ns| - 1];
    assert forall k :: 0 <= k < |init| ==> init[k] == ns[k];
  }

  /** The rendering fails exactly when some feature has an undocumented value type. */
  lemma {:induction false} TypedEntriesFailsIff(ns: seq<NamedFeature>)
    ensures TypedEntries(ns).Failure? <==> !AllSupported(ns)
  {
    if ns != [] {
      TypedEntriesFailsIff(ns[..|ns| - 1]);
      TypedEntriesLast(ns);
      AllSupportedLast(ns);
    }
  }

  /**
   * When the rendering fails, the error names the first feature whose value
   * type is undocumented, and that value type.
   */
  lemma {:induction false} TypedEntriesFirstError(ns: seq<NamedFeature>)
    requires TypedEntries(ns).Failure?
    ensures exists k :: (0 <= k < |ns| && AllSupported(ns[..k]) && !Supported(ns[k].valueType) &&
      TypedEntries(ns).error == UnsupportedError(ns[k]))
  {
    var init, last := ns[..|ns| - 1], ns[|ns| - 1];
    TypedEntriesLast(ns);
    if TypedEntries(init).Failure? {
      TypedEntriesFirstError(init);
      var k :| 0 <= k < |init| && AllSupported(init[..k]) && !Supported(init[k].valueType) &&
        TypedEntries(init).error == UnsupportedError(init[k]);
      assert init[..k] == ns[..k];
      assert init[k] == ns[k];
    } else {
      TypedEntriesFailsIff(init);
      assert ns[..|ns| - 1] == init;
    }
  }

  /** The declarations of the features with their wrappers, in order. */
  function TypedDecls(ns: seq<NamedFeature>): (r: seq<string>)
    requires AllSupported(ns)
    ensures |r| == |ns|
    ensures forall k :: 0 <= k < |ns| ==>
      TypeExpr(ns[k].valueType).Success? && r[k] == TypedDecl(ns[k], TypeExpr(ns[k].valueType).value)
  {
    if ns == [] then []
    else
      var last := ns[|ns| - 1];
      TypedDecls(ns[..|ns| - 1]) + [TypedDecl(last, TypeExpr(last.valueType).value)]
  }

  lemma {:induction false} TypedEntriesCode(ns: seq<NamedFeature>)
    requires AllSupported(ns)
    requires forall k :: 0 <= k < |ns| ==> ns[k].name != [] && ns[k].name[0] != '/'
    ensures TypedEntries(ns).Success?
    ensures Code(TypedEntries(ns).value) == TypedDecls(ns)
  {
    if ns != [] {
      var init, last := ns[..|ns| - 1], ns[|ns| - 1];
      assert forall k :: 0 <= k < |init| ==> init[k] == ns[k];
      TypedEntriesCode(init);
      TypeExprRoundTrip(last.valueType);
      var expr := TypeExpr(last.valueType).value;
      var a, c, d := TypedEntries(init).value, EntryComments(last), TypedDecl(last, expr);
      assert TypedEntries(ns).value == (a + c) + [d];
      assert TypedDecls(ns) == TypedDecls(init) + [d];
      EntryCommentsAreComments(last);
      CodeAppend(a, c);
      assert Code(a + c) == TypedDecls(init) + [];
      var rest := " = " + expr + "(" + Quote(last.id) + ")";
      assert d == "\t" + last.name + rest by {
        AppendAssoc("\t" + last.name, " = ", expr);
        AppendAssoc("\t" + last.name, " = " + expr, "(");
        AppendAssoc("\t" + last.name, " = " + expr + "(", Quote(last.id));
        AppendAssoc("\t" + last.name, " = " + expr + "(" + Quote(last.id), ")");
      }
      IndentedNameNotComment(last.name, rest);
      CodeOfLine(d);
      CodeAppend(a + c, [d]);
    }
  }

  /**
   * When every feature of a catalog has a documented value type the rendering
   * succeeds, and leaving out the comments its `var` block is one
   * `<Name> = <wrapper>("<id>")` line per feature, in catalog order.
   */
  lemma TypedDeclsInOrder(fs: seq<FeatureMeta>)
    requires AllSupported(NamedCatalog(fs))
    ensures TypedEntries(NamedCatalog(fs)).Success?
    ensures Code(TypedEntries(NamedCatalog(fs)).value) == TypedDecls(NamedCatalog(fs))
  {
    var ns := NamedCatalog(fs);
    forall k | 0 <= k < |ns|
      ensures ns[k].name != [] && ns[k].name[0] != '/'
    {
      NameAtShape(fs, k);
      assert ns[k].name[0] == 'F';
    }
    TypedEntriesCode(ns);
  }

  lemma {:induction false} TypedEntriesIndented(ns: seq<NamedFeature>)
    requires TypedEntries(ns).Success?
    ensures forall line | line in TypedEntries(ns).value :: line != [] && line[0] == '\t'
  {
    if ns != [] {
      var init, last := ns[..|ns| - 1], ns[|ns| - 1];
      TypedEntriesIndented(init);
      forall line | line in EntryComments(last)
        ensures line != [] && line[0] == '\t'
      {
      }
    }
  }

  /**
   * The `FeatureKey` type and the `FeatureList` literal are written exactly
   * when the list is requested; the `var` block is always there.
   */
  lemma TypedBodyShape(ns: seq<NamedFeature>, entries: seq<string>, emitList: bool)
    requires forall line | line in entries :: line != [] && line[0] == '\t'
    ensures ListOpen in TypedBody(ns, entries, emitList) <==> emitList
    ensures "type FeatureKey string" in TypedBody(ns, entries, emitList) <==> emitList
    ensures VarOpen in TypedBody(ns, entries, emitList)
  {
    var head := TypedHead(emitList);
    var front := head + entries + [")"];
    InAppend(ListOpen, head, entries);
    InAppend(ListOpen, head + entries, [")"]);
    InAppend("type FeatureKey string", head, entries);
    InAppend("type FeatureKey string", head + entries, [")"]);
    InAppend(VarOpen, head, entries);
    InAppend(VarOpen, head + entries, [")"]);
    assert VarOpen in head;
    assert ListOpen !in entries && "type FeatureKey string" !in entries by {
      assert forall line | line in entries :: line != ListOpen && line != "type FeatureKey string";
    }
    if emitList {
      var block := TypedListBlock(ns);
      assert block[1] == ListOpen;
      assert head[0] == "type FeatureKey string";
      InAppend(ListOpen, front, block);
      InAppend("type FeatureKey string", front, block);
      InAppend(VarOpen, front, block);
    }
  }

  /**
   * Lines 47-68 of typed.go: each feature's comments, then its helper
   * variable; the first undocumented value type ends the loop with an error.
   */
  method WriteTypedEntries(buf: seq<string>, ns: seq<NamedFeature>) returns (r: Result<seq<string>>)
    ensures r.Failure? <==> TypedEntries(ns).Failure?
    ensures r.Failure? ==> r.error == TypedEntries(ns).error
    ensures r.Success? ==> r.value == buf + TypedEntries(ns).value
  {
    var b := buf;
    for i := 0 to |ns|
      invariant TypedEntries(ns[..i]).Success?
      invariant b == buf + TypedEntries(ns[..i]).value
    {
      var l := ns[i];
      ghost var done, cs := TypedEntries(ns[..i]).value, EntryComments(l);
      assert ns[..i + 1][..i] == ns[..i];
      b := WriteEntryComments(b, l);
      AppendAssoc(buf, done, cs);
      var typeExpr := TypeExpr(l.valueType);
      if typeExpr.Failure? {
        TypedEntriesPrefixFailure(ns, i + 1);
        return Failure(FeatureError(l, typeExpr.error));
      }
      b := b + [TypedDecl(l, typeExpr.value)];
      AppendAssoc(buf, done + cs, [TypedDecl(l, typeExpr.value)]);
    }
    assert ns[..|ns|] == ns;
    r := Success(b);
  }

  /** Lines 73-75 of typed.go: one `FeatureKey("<id>")` item per feature. */
  method WriteTypedListItems(ns: seq<NamedFeature>) returns (items: seq<string>)
    ensures items == TypedListItems(ns)
  {
    items := [];
    for i := 0 to |ns|
      invariant items == TypedListItems(ns[..i])
    {
      assert ns[..i + 1][..i] == ns[..i];
      items := items + ["\tFeatureKey(" + Quote(ns[i].id) + "),"];
    }
    assert ns[..|ns|] == ns;
  }

  /**
   * `renderTypedFeaturesGo`: renders the preamble (its error is returned as
   * is), writes the body line by line and formats it; an undocumented value
   * type fails the whole rendering.
   */
  method RenderTypedFeaturesGo(pkg: string, features: seq<FeatureMeta>, emitList: bool, tc: Toolchain)
    returns (r: Result<string>)
    ensures r == TypedOutcome(pkg, features, emitList, tc)
  {
    var pkgName := pkg;
    if pkgName == "" {
      pkgName := "features";
    }
    var lines := NameAndDedupe(features);
    var preamble := tc.renderPreamble(TypedPreamble(pkgName, tc.version));
    if preamble.Failure? {
      return Failure(preamble.error);
    }
    var b: seq<string> := [];
    if emitList {
      b := KeyTypeLines;
    }
    b := b + [VarOpen];
    assert b == TypedHead(emitList);
    var entries := WriteTypedEntries(b, lines);
    if entries.Failure? {
      return Failure(entries.error);
    }
    b := entries.value + [")"];
    if emitList {
      var items := WriteTypedListItems(lines);
      b := b + (["", ListOpen] + items + ["}"]);
    }
    assert b == TypedBody(lines, TypedEntries(lines).value, emitList);
    r := tc.formatGo(preamble.value + Unlines(b));
  }

  /**
   * The package name in the typed preamble is the configured one, or
   * "features" when it is empty, and the `types` package is imported.
   */
  lemma TypedPreambleShape(pkg: string, version: string)
    ensures TypedPreamble(PackageName(pkg), version).packageName != ""
    ensures pkg != "" ==> TypedPreamble(PackageName(pkg), version).packageName == pkg
    ensures pkg == "" ==> TypedPreamble(PackageName(pkg), version).packageName == "features"
    ensures TypedPreamble(PackageName(pkg), version).imports == [TypesImport]
  {
  }
}
