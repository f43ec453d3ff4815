/**
 * The keys-only renderer (`renderFeatureKeysGo`, internal/generator/keys.go):
 * a `FeatureKey` string type, one typed constant per feature inside
 * `const (...)` with its description and deprecation comments, and an
 * optional `FeatureList` slice of every constant.
 */
module KeysRender {
  import opened Wrappers
  import opened Text
  import opened Meta
  import opened Render

  const KeysHeader: seq<string> := ["type FeatureKey string", "", "const ("]
  const ConstClose: seq<string> := [")", ""]
  const ListClose: seq<string> := ["}", ""]

  /** The preamble options of the keys file: no imports, a usage example in the package comment. */
  function KeysPreamble(pkgName: string, version: string): PreambleOptions {
    PreambleOptions(
      pkgName,
      version,
      [ "Package " + pkgName + " contains generated GrowthBook feature keys.",
        "",
        "Example:",
        "\timport " + Quote("path/to/your/generated/" + pkgName),
        "",
        "\t// Use the generated keys with your GrowthBook SDK wrapper / evaluator.",
        "\t_ = FeatureKey(\"example\")"],
      [])
  }

  /** `<Name> FeatureKey = "<id>"`. */
  function KeyDecl(n: NamedFeature): string {
    "\t" + n.name + " FeatureKey = " + Quote(n.id)
  }

  /** The lines of the `const` block for the features, in order. */
  function KeyEntries(ns: seq<NamedFeature>): seq<string> {
    if ns == [] then []
    else
      var last := ns[|ns| - 1];
      KeyEntries(ns[..|ns| - 1]) + EntryComments(last) + [KeyDecl(last)]
  }

  /** The lines of the `FeatureList` literal, one per feature, in order. */
  function KeyListItems(ns: seq<NamedFeature>): (r: seq<string>)
    ensures |r| == |ns|
    ensures forall k :: 0 <= k < |ns| ==> r[k] == "\t" + ns[k].name + ","
  {
    if ns == [] then [] else KeyListItems(ns[..|ns| - 1]) + ["\t" + ns[|ns| - 1].name + ","]
  }

  function KeysListBlock(ns: seq<NamedFeature>): seq<string> {
    [ListOpen] + KeyListItems(ns) + ListClose
  }

  /** The buffer after the preamble. */
  function KeysBody(ns: seq<NamedFeature>, emitList: bool): seq<string> {
    var front := KeysHeader + KeyEntries(ns) + ConstClose;
    if emitList then front + KeysListBlock(ns) else front
  }

  /** What `renderFeatureKeysGo` returns for a catalog. */
  function KeysOutcome(pkg: string, features: seq<FeatureMeta>, emitList: bool, tc: Toolchain): Result<string> {
    var pre := tc.renderPreamble(KeysPreamble(PackageName(pkg), tc.version));
    if pre.Failure? then Failure(pre.error)
    else tc.formatGo(pre.value + Unlines(KeysBody(NamedCatalog(features), emitList)))
  }

  /**
   * `renderFeatureKeysGo`: names the features, renders the preamble (its
   * error is returned as is), writes the body line by line and formats it.
   */
  method RenderFeatureKeysGo(pkg: string, features: seq<FeatureMeta>, emitList: bool, tc: Toolchain)
    returns (r: Result<string>)
    ensures r == KeysOutcome(pkg, features, emitList, tc)
  {
    var lines := NameAndDedupe(features);
    var pkgName := pkg;
    if pkgName == "" {
      pkgName := "features";
    }
    var preamble := tc.renderPreamble(KeysPreamble(pkgName, tc.version));
    if preamble.Failure? {
      return Failure(preamble.error);
    }
    // `type FeatureKey string`, a blank line and `const (`
    var b := WriteKeyEntries(KeysHeader, lines);
    b := b + ConstClose;
    if emitList {
      var items := WriteKeyListItems(lines);
      b := b + ([ListOpen] + items + ListClose);
    }
    assert b == KeysBody(lines, emitList);
    r := tc.formatGo(preamble.value + Unlines(b));
  }

  /** Lines 40-58 of keys.go: each feature's comments, then its constant. */
  method WriteKeyEntries(buf: seq<string>, ns: seq<NamedFeature>) returns (b: seq<string>)
    ensures b == buf + KeyEntries(ns)
  {
    b := buf;
    for i := 0 to |ns|
      invariant b == buf + KeyEntries(ns[..i])
    {
      var l := ns[i];
      ghost var done, cs := KeyEntries(ns[..i]), EntryComments(l);
      assert ns[..i + 1][..i] == ns[..i];
      b := WriteEntryComments(b, l);
      AppendAssoc(buf, done, cs);
      b := b + [KeyDecl(l)];
      AppendAssoc(buf, done + cs, [KeyDecl(l)]);
    }
    assert ns[..|ns|] == ns;
  }

  /** Lines 62-66 of keys.go: one `FeatureList` item per feature. */
  method WriteKeyListItems(ns: seq<NamedFeature>) returns (items: seq<string>)
    ensures items == KeyListItems(ns)
  {
    items := [];
    for i := 0 to |ns|
      invariant items == KeyListItems(ns[..i])
    {
      assert ns[..i + 1][..i] == ns[..i];
      items := items + ["\t" + ns[i].name + ","];
    }
    assert ns[..|ns|] == ns;
  }

  /** A line of the body that no other kind of line can be. */
  predicate StartsWithTab(line: string) {
    line != [] && line[0] == '\t'
  }

  /** The declarations of the features, in order. */
  function KeyDecls(ns: seq<NamedFeature>): (r: seq<string>)
    ensures |r| == |ns|
    ensures forall k :: 0 <= k < |ns| ==> r[k] == KeyDecl(ns[k])
  {
    if ns == [] then [] else KeyDecls(ns[..|ns| - 1]) + [KeyDecl(ns[|ns| - 1])]
  }

  /** The step of `KeyEntriesCode`: one more feature adds its declaration as the only code line. */
  lemma KeyEntriesCodeLast(ns: seq<NamedFeature>)
    requires ns != [] && ns[|ns| - 1].name != [] && ns[|ns| - 1].name[0] != '/'
    requires Code(KeyEntries(ns[..|ns| - 1])) == KeyDecls(ns[..|ns| - 1])
    ensures Code(KeyEntries(ns)) == KeyDecls(ns)
  {
    var init, last := ns[..|ns| - 1], ns[|ns| - 1];
    var a, c, d := KeyEntries(init), EntryComments(last), KeyDecl(last);
    assert KeyEntries(ns) == (a + c) + [d];
    assert KeyDecls(ns) == KeyDecls(init) + [d];
    EntryCommentsAreComments(last);
    CodeAppend(a, c);
    assert Code(a + c) == KeyDecls(init) by {
      assert KeyDecls(init) + [] == KeyDecls(init);
    }
    assert !IsComment(d) by {
      AppendAssoc("\t" + last.name, " FeatureKey = ", Quote(last.id));
      IndentedNameNotComment(last.name, " FeatureKey = " + Quote(last.id));
    }
    CodeOfLine(d);
    assert Code([d]) == [d];
    CodeAppend(a + c, [d]);
  }

  /** Behind the comment lines, the entries are the features' declarations, in order. */
  lemma {:induction false} KeyEntriesCode(ns: seq<NamedFeature>)
    requires forall k :: 0 <= k < |ns| ==> ns[k].name != [] && ns[k].name[0] != '/'
    ensures Code(KeyEntries(ns)) == KeyDecls(ns)
  {
    if ns != [] {
      var init := ns[..|ns| - 1];
      assert forall k :: 0 <= k < |init| ==> init[k] == ns[k];
      KeyEntriesCode(init);
      KeyEntriesCodeLast(ns);
    }
  }

  /**
   * Leaving out the comments, the `const` block of a rendered catalog is one
   * `<Name> FeatureKey = "<id>"` line per feature, in catalog order.
   */
  lemma KeyDeclsInOrder(fs: seq<FeatureMeta>)
    ensures var ns := NamedCatalog(fs);
      Code(KeyEntries(ns)) == KeyDecls(ns)
  {
    var ns := NamedCatalog(fs);
    forall k | 0 <= k < |ns|
      ensures ns[k].name != [] && ns[k].name[0] != '/'
    {
      NameAtShape(fs, k);
      assert ns[k].name[0] == 'F';
    }
    KeyEntriesCode(ns);
  }

  lemma {:induction false} KeyEntriesIndented(ns: seq<NamedFeature>)
    ensures forall line | line in KeyEntries(ns) :: StartsWithTab(line)
  {
    if ns != [] {
      var last := ns[|ns| - 1];
      KeyEntriesIndented(ns[..|ns| - 1]);
      forall line | line in EntryComments(last)
        ensures StartsWithTab(line)
      {
      }
    }
  }

  lemma KeysFrontShape(ns: seq<NamedFeature>)
    ensures var front := KeysHeader + KeyEntries(ns) + ConstClose;
      front[..3] == KeysHeader && ListOpen !in front
  {
    var entries := KeyEntries(ns);
    AppendParts(KeysHeader, entries);
    AppendParts(KeysHeader + entries, ConstClose);
    KeyEntriesIndented(ns);
    assert !StartsWithTab(ListOpen);
    InAppend(ListOpen, KeysHeader, entries);
    InAppend(ListOpen, KeysHeader + entries, ConstClose);
  }

  /**
   * The body always starts with `type FeatureKey string` and the `const`
   * block, and holds the `FeatureList` literal exactly when `emitList` is set;
   * that literal then closes the body with one item per feature, in order.
   */
  lemma KeysBodyShape(ns: seq<NamedFeature>, emitList: bool)
    ensures KeysBody(ns, emitList)[..3] == KeysHeader
    ensures ListOpen in KeysBody(ns, emitList) <==> emitList
    ensures emitList ==> KeysBody(ns, emitList)[|KeysBody(ns, emitList)| - |ns| - 2..] == KeyListItems(ns) + ListClose
  {
    var front := KeysHeader + KeyEntries(ns) + ConstClose;
    KeysFrontShape(ns);
    if emitList {
      var tail := KeyListItems(ns) + ListClose;
      assert KeysListBlock(ns) == [ListOpen] + tail;
      AppendBlock(front, ListOpen, tail, 3);
    }
  }

  /** The package name in the keys preamble is the configured one, or "features" when it is empty; nothing is imported. */
  lemma KeysPreambleShape(pkg: string, version: string)
    ensures KeysPreamble(PackageName(pkg), version).packageName != ""
    ensures pkg != "" ==> KeysPreamble(PackageName(pkg), version).packageName == pkg
    ensures pkg == "" ==> KeysPreamble(PackageName(pkg), version).packageName == "features"
    ensures KeysPreamble(PackageName(pkg), version).imports == []
  {
  }
}
