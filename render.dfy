/**
 * What the two source renderers (internal/generator/keys.go and
 * internal/generator/typed.go) share: the preamble options, the code they
 * call but that is not part of this model (`renderPreamble`, `formatGo`,
 * the build version), the default package name, and the comment block
 * written above every feature. A renderer's buffer is modelled as the
 * sequence of lines it writes; every write ends with a newline and no
 * written line holds one, so the buffer's text is `Unlines(lines)`.
 */
module Render {
  import opened Wrappers
  import opened Text
  import opened Meta

  /** `preambleOptions`: what the file header is rendered from. */
  datatype PreambleOptions = PreambleOptions(
    packageName: string,
    version: string,
    docLines: seq<string>,
    imports: seq<string>)

  /**
   * The renderers' collaborators: the build version, `renderPreamble` and
   * `formatGo`. Their bodies are not part of this model.
   */
  datatype Toolchain = Toolchain(
    version: string,
    renderPreamble: PreambleOptions -> Result<string>,
    formatGo: string -> Result<string>)

  const DefaultPackage := "features"
  const DeprecationText := "Deprecated: no active environments"
  const CommentPrefix := "\t// "
  const ListOpen := "var FeatureList = []FeatureKey{"

  /** The package name a renderer uses: the configured one, or "features" when it is empty. */
  function PackageName(pkg: string): string {
    if pkg == "" then DefaultPackage else pkg
  }

  /** The trimmed, non-blank pieces of a description split at newlines. */
  function NonBlankLines(parts: seq<string>): seq<string> {
    if parts == [] then []
    else
      var t := TrimSpace(parts[0]);
      (if t == "" then [] else [t]) + NonBlankLines(parts[1..])
  }

  /** The comment text a description contributes, one entry per non-blank line. */
  function DescriptionLines(desc: string): seq<string> {
    var d := TrimSpace(desc);
    if d == "" then [] else NonBlankLines(Split(d, '\n'))
  }

  function CommentLine(t: string): string {
    CommentPrefix + t
  }

  function CommentLines(ts: seq<string>): (r: seq<string>)
    ensures |r| == |ts|
    ensures forall k :: 0 <= k < |ts| ==> r[k] == CommentLine(ts[k])
  {
    if ts == [] then [] else [CommentLine(ts[0])] + CommentLines(ts[1..])
  }

  /** The lines written above a feature's declaration: its description, then the deprecation marker. */
  function EntryComments(n: NamedFeature): seq<string> {
    CommentLines(DescriptionLines(n.description))
      + (if n.noActiveEnvs then [CommentLine(DeprecationText)] else [])
  }

  /** A line the renderers write as a comment. */
  predicate IsComment(line: string) {
    HasPrefix(line, "\t//")
  }

  lemma NotComment(line: string)
    requires |line| >= 2 && line[1] != '/'
    ensures !IsComment(line)
  {
  }

  /** A line written as a tab and then a name that does not start with `/` is code. */
  lemma IndentedNameNotComment(name: string, rest: string)
    requires name != [] && name[0] != '/'
    ensures !IsComment("\t" + name + rest)
  {
    var line := "\t" + name + rest;
    assert line[1] == name[0];
    NotComment(line);
  }

  /** The lines that are not comments, in order. */
  function Code(lines: seq<string>): (r: seq<string>)
    ensures |r| <= |lines|
  {
    if lines == [] then []
    else (if IsComment(lines[0]) then [] else [lines[0]]) + Code(lines[1..])
  }

  lemma {:induction false} CodeAppend(a: seq<string>, b: seq<string>)
    ensures Code(a + b) == Code(a) + Code(b)
  {
    if a == [] {
      assert a + b == b;
    } else {
      assert (a + b)[1..] == a[1..] + b;
      CodeAppend(a[1..], b);
    }
  }

  lemma CodeOfLine(line: string)
    ensures Code([line]) == if IsComment(line) then [] else [line]
  {
    assert [line][1..] == [];
  }

  lemma {:induction false} NonBlankLinesShape(parts: seq<string>)
    requires forall k :: 0 <= k < |parts| ==> '\n' !in parts[k]
    ensures forall t | t in NonBlankLines(parts) :: t != "" && '\n' !in t && TrimSpace(t) == t
  {
    if parts != [] {
      TrimSpaceKeepsOut(parts[0], '\n');
      TrimSpaceIdempotent(parts[0]);
      NonBlankLinesShape(parts[1..]);
    }
  }

  /**
   * Every comment text of a description is one non-empty line without
   * surrounding white space, so each `// <line>` written is a single line.
   */
  lemma DescriptionLinesShape(desc: string)
    ensures forall t | t in DescriptionLines(desc) :: t != "" && '\n' !in t && TrimSpace(t) == t
  {
    var d := TrimSpace(desc);
    if d != "" {
      NonBlankLinesShape(Split(d, '\n'));
    }
  }

  lemma CommentLineIsComment(t: string)
    ensures IsComment(CommentLine(t))
    ensures Code([CommentLine(t)]) == []
  {
    assert CommentLine(t)[..3] == "\t//";
  }

  lemma {:induction false} CommentLinesAreComments(ts: seq<string>)
    ensures Code(CommentLines(ts)) == []
  {
    if ts != [] {
      CommentLineIsComment(ts[0]);
      assert CommentLines(ts) == [CommentLine(ts[0])] + CommentLines(ts[1..]);
      CodeAppend([CommentLine(ts[0])], CommentLines(ts[1..]));
      CommentLinesAreComments(ts[1..]);
    }
  }

  /** Everything written above a declaration is a comment. */
  lemma EntryCommentsAreComments(n: NamedFeature)
    ensures Code(EntryComments(n)) == []
  {
    CommentLinesAreComments(DescriptionLines(n.description));
    CommentLineIsComment(DeprecationText);
    CodeAppend(CommentLines(DescriptionLines(n.description)),
      if n.noActiveEnvs then [CommentLine(DeprecationText)] else []);
  }

  lemma CommentLineInjective(a: string, b: string)
    requires CommentLine(a) == CommentLine(b)
    ensures a == b
  {
    assert a == CommentLine(a)[|CommentPrefix|..];
  }

  /**
   * The deprecation marker is written above a feature exactly when it has no
   * active environment, unless its description itself holds that line.
   */
  lemma DeprecationMarker(n: NamedFeature)
    ensures n.noActiveEnvs ==> CommentLine(DeprecationText) in EntryComments(n)
    ensures CommentLine(DeprecationText) in EntryComments(n) <==>
      n.noActiveEnvs || DeprecationText in DescriptionLines(n.description)
  {
    var ts := DescriptionLines(n.description);
    var cs := CommentLines(ts);
    if CommentLine(DeprecationText) in cs {
      var k :| 0 <= k < |cs| && cs[k] == CommentLine(DeprecationText);
      CommentLineInjective(ts[k], DeprecationText);
    }
    if DeprecationText in ts {
      var k :| 0 <= k < |ts| && ts[k] == DeprecationText;
      assert cs[k] == CommentLine(DeprecationText);
    }
  }

  /**
   * Lines 44-56 of keys.go and 48-60 of typed.go: each non-blank trimmed
   * description line becomes `// <line>`, then the deprecation marker.
   */
  method WriteEntryComments(buf: seq<string>, n: NamedFeature) returns (out: seq<string>)
    ensures out == buf + EntryComments(n)
  {
    out := WriteDescription(buf, n.description);
    if n.noActiveEnvs {
      AppendAssoc(buf, CommentLines(DescriptionLines(n.description)), [CommentLine(DeprecationText)]);
      out := out + [CommentLine(DeprecationText)];
    } else {
      assert EntryComments(n) == CommentLines(DescriptionLines(n.description)) + [];
    }
  }

  /** The description part of `WriteEntryComments`: one comment line per non-blank trimmed line. */
  method WriteDescription(buf: seq<string>, description: string) returns (out: seq<string>)
    ensures out == buf + CommentLines(DescriptionLines(description))
  {
    out := buf;
    var desc := TrimSpace(description);
    if desc == "" {
      assert buf + [] == buf;
      return;
    }
    var parts := Split(desc, '\n');
    for k := 0 to |parts|
      invariant out + CommentLines(NonBlankLines(parts[k..])) == buf + CommentLines(NonBlankLines(parts))
    {
      var line := TrimSpace(parts[k]);
      ghost var later := NonBlankLines(parts[k + 1..]);
      assert parts[k..][1..] == parts[k + 1..];
      assert NonBlankLines(parts[k..]) == (if line == "" then [] else [line]) + later;
      if line == "" {
        assert NonBlankLines(parts[k..]) == later;
        continue;
      }
      assert ([line] + later)[1..] == later;
      assert CommentLines(NonBlankLines(parts[k..])) == [CommentLine(line)] + CommentLines(later);
      AppendAssoc(out, [CommentLine(line)], CommentLines(later));
      out := out + [CommentLine(line)];
    }
    assert parts[|parts|..] == [];
  }
}
