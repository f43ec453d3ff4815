/**
 * User-facing validation errors (internal/config/validate.go): the message
 * of a `ValidationError`, the mapping of a validator's struct namespaces to
 * configuration keys, and the translation of the validator's field errors
 * into one problem line each. The struct-tag validator itself is not part
 * of this model: `Validate` takes it as a function.
 */
module Validate {
  import opened Wrappers
  import opened Text
  import opened Codec

  /** One failed rule of the validator: the field's struct namespace and the rule's tag. */
  datatype FieldError = FieldError(structNamespace: string, tag: string)

  /**
   * What the validator returns: its list of field errors, or any other
   * error; both carry the text their `Error()` gives.
   */
  datatype ValidatorError =
    | ValidationErrors(fields: seq<FieldError>, message: string)
    | OtherError(message: string)

  /** What `Validate` reports: a validator error passed on as is, or a `ValidationError` with its problems. */
  datatype ReportedError =
    | Raw(err: ValidatorError)
    | Invalid(problems: seq<string>)

  const HeaderLine := "invalid configuration:"
  const Header := HeaderLine + "\n"

  /** The item lines of the message, one per problem, in order. */
  function Items(ps: seq<string>): (r: seq<string>)
    ensures |r| == |ps|
    ensures forall k :: 0 <= k < |ps| ==> r[k] == " - " + ps[k]
  {
    if ps == [] then [] else Items(ps[..|ps| - 1]) + [" - " + ps[|ps| - 1]]
  }

  /** What the loop of `Error()` writes after the header. */
  function Listing(ps: seq<string>): string {
    if ps == [] then [] else Listing(ps[..|ps| - 1]) + (" - " + ps[|ps| - 1] + "\n")
  }

  /** The message of a `ValidationError`. */
  function ErrorText(ps: seq<string>): string {
    if ps == [] then "invalid configuration"
    else TrimRightNewlines(Header + Listing(ps))
  }

  /** `ValidationError.Error`. */
  method Error(problems: seq<string>) returns (s: string)
    ensures s == ErrorText(problems)
  {
    if |problems| == 0 {
      return "invalid configuration";
    }
    var b := Header;
    for i := 0 to |problems|
      invariant b == Header + Listing(problems[..i])
    {
      assert problems[..i + 1][..i] == problems[..i];
      AppendAssoc(Header, Listing(problems[..i]), " - " + problems[i] + "\n");
      b := b + (" - " + problems[i] + "\n");
    }
    assert problems[..|problems|] == problems;
    s := TrimRightNewlines(b);
  }

  lemma {:induction false} ListingJoin(ps: seq<string>)
    requires ps != []
    ensures Listing(ps) == Join(Items(ps), "\n") + "\n"
  {
    var init, last := ps[..|ps| - 1], ps[|ps| - 1];
    if init == [] {
      assert Listing(ps) == [] + (" - " + last + "\n");
      assert Items(ps) == [" - " + last];
    } else {
      ListingJoin(init);
      JoinSnoc(Items(init), " - " + last, "\n");
      AppendAssoc(Join(Items(init), "\n"), "\n", " - " + last + "\n");
      AppendAssoc(Join(Items(init), "\n") + "\n", " - " + last, "\n");
    }
  }

  /** Dropping the one final newline of a line whose own end is not a newline. */
  lemma TrimOneNewline(x: string)
    requires x != [] && x[|x| - 1] != '\n'
    ensures TrimRightNewlines(x + "\n") == x
  {
    assert (x + "\n")[..|x + "\n"| - 1] == x;
  }

  /**
   * With problems, the message is the header line and then one ` - <p>`
   * line per problem, in order, joined by newlines and with no trailing
   * newline (provided the last problem does not itself end in one).
   */
  lemma ErrorTextJoined(ps: seq<string>)
    requires ps != [] && !HasSuffix(ps[|ps| - 1], "\n")
    ensures ErrorText(ps) == Join([HeaderLine] + Items(ps), "\n")
  {
    var items := Items(ps);
    var last := ps[|ps| - 1];
    var j := Join(items, "\n");
    ListingJoin(ps);
    JoinEnds(items, "\n");
    LastItemNotNewline(last);
    assert j[|j| - 1] == items[|items| - 1][|items[|items| - 1]| - 1];
    AppendAssoc(Header, j, "\n");
    TrimOneNewline(Header + j);
    JoinCons(HeaderLine, items, "\n");
  }

  lemma LastItemNotNewline(p: string)
    requires !HasSuffix(p, "\n")
    ensures var item := " - " + p; item[|item| - 1] != '\n'
  {
    if p != [] {
      assert p[|p| - 1..] != "\n";
    }
  }

  /**
   * When no problem holds a newline, the message splits back into the
   * header line and exactly one ` - <p>` line per problem, in order; without
   * problems it is the single line "invalid configuration".
   */
  lemma ErrorTextLines(ps: seq<string>)
    requires forall k :: 0 <= k < |ps| ==> '\n' !in ps[k]
    ensures ps == [] ==> ErrorText(ps) == "invalid configuration"
    ensures ps != [] ==> Split(ErrorText(ps), '\n') == [HeaderLine] + Items(ps)
  {
    if ps != [] {
      var last := ps[|ps| - 1];
      NoNewlineNoSuffix(last);
      ErrorTextJoined(ps);
      var lines := [HeaderLine] + Items(ps);
      LinesNoNewline(ps);
      SplitJoin(lines, '\n');
    }
  }

  lemma LinesNoNewline(ps: seq<string>)
    requires forall k :: 0 <= k < |ps| ==> '\n' !in ps[k]
    ensures forall k :: 0 <= k < |[HeaderLine] + Items(ps)| ==> '\n' !in ([HeaderLine] + Items(ps))[k]
  {
    var lines := [HeaderLine] + Items(ps);
    HeaderNoNewline();
    forall k | 1 <= k < |lines|
      ensures '\n' !in lines[k]
    {
      ItemNoNewline(ps[k - 1]);
    }
  }

  lemma HeaderNoNewline()
    ensures '\n' !in HeaderLine
  {
    forall i | 0 <= i < |HeaderLine|
      ensures HeaderLine[i] != '\n'
    {
    }
  }

  lemma ItemNoNewline(p: string)
    requires '\n' !in p
    ensures '\n' !in " - " + p
  {
    assert forall i :: 0 <= i < |p| ==> (" - " + p)[i + 3] == p[i];
  }

  lemma NoNewlineNoSuffix(p: string)
    requires '\n' !in p
    ensures !HasSuffix(p, "\n")
  {
    if p != [] {
      assert p[|p| - 1] in p;
      assert p[|p| - 1..][0] == p[|p| - 1];
    }
  }

  /** The first step of `toConfigPath`: at most two leading "Config." dropped. */
  function StripNamespace(structNamespace: string): string {
    var s := TrimPrefix(structNamespace, "Config.");
    var s := TrimPrefix(s, "Config.");
    ReplaceAll(s, ".", ".")
  }

  /** The section names in configuration-file casing. */
  function LowerSections(s: string): string {
    var s := ReplaceAll(s, "GrowthBook.", "growthbook.");
    ReplaceAll(s, "Generator.", "generator.")
  }

  /** The field names in configuration-file casing, applied in the order `toConfigPath` applies them. */
  function LowerFields(s: string): string {
    LowerOutputFields(LowerClientFields(s))
  }

  /** The first three field renames: those of the GrowthBook section. */
  function LowerClientFields(s: string): string {
    var s := ReplaceAll(s, "APIBaseURL", "apiBaseURL");
    var s := ReplaceAll(s, "APIKey", "apiKey");
    ReplaceAll(s, "ProjectID", "projectID")
  }

  /** The last two field renames: those of the generator section. */
  function LowerOutputFields(s: string): string {
    var s := ReplaceAll(s, "OutputDir", "outputDir");
    ReplaceAll(s, "PackageName", "packageName")
  }

  /** `toConfigPath`: a struct namespace as the key a configuration file uses. */
  function ToConfigPath(structNamespace: string): string {
    LowerFields(LowerSections(StripNamespace(structNamespace)))
  }

  /** The problem a failed rule becomes. */
  function Problem(path: string, tag: string): string {
    if tag == "required" then path + " is required"
    else if tag == "url" then path + " must be a valid URL (e.g. https://api.growthbook.io)"
    else path + " is invalid (" + tag + ")"
  }

  /** The problems of a list of field errors, one per error, in order. */
  function ProblemsOf(fes: seq<FieldError>): (r: seq<string>)
    ensures |r| == |fes|
    ensures forall k :: 0 <= k < |fes| ==>
      r[k] == Problem(ToConfigPath(fes[k].structNamespace), fes[k].tag)
  {
    if fes == [] then []
    else
      var fe := fes[|fes| - 1];
      ProblemsOf(fes[..|fes| - 1]) + [Problem(ToConfigPath(fe.structNamespace), fe.tag)]
  }

  /** What `humanizeValidationError` returns. */
  function Humanized(err: ValidatorError): ReportedError {
    if err.ValidationErrors? then Invalid(ProblemsOf(err.fields)) else Raw(err)
  }

  predicate Contains(s: string, sub: string) {
    exists i | 0 <= i <= |s| :: HasPrefix(s[i..], sub)
  }

  /**
   * `humanizeValidationError`: only a list of field errors is translated,
   * whatever its text says; any other error is passed on unchanged.
   */
  method HumanizeValidationError(err: ValidatorError) returns (r: ReportedError)
    ensures r == Humanized(err)
  {
    if !Contains(err.message, "ValidationErrors") {
      if !err.ValidationErrors? {
        return Raw(err);
      }
    }
    if !err.ValidationErrors? {
      return Raw(err);
    }
    var fes := err.fields;
    var problems := [];
    for i := 0 to |fes|
      invariant problems == ProblemsOf(fes[..i])
    {
      assert fes[..i + 1][..i] == fes[..i];
      var path := ToConfigPath(fes[i].structNamespace);
      if fes[i].tag == "required" {
        problems := problems + [path + " is required"];
      } else if fes[i].tag == "url" {
        problems := problems + [path + " must be a valid URL (e.g. https://api.growthbook.io)"];
      } else {
        problems := problems + [path + " is invalid (" + fes[i].tag + ")"];
      }
    }
    assert fes[..|fes|] == fes;
    return Invalid(problems);
  }

  /**
   * `Config.Validate`: nothing when the validator accepts the configuration,
   * otherwise its error as `humanizeValidationError` reports it.
   */
  method Validate(cfg: Config, validator: Config -> Option<ValidatorError>) returns (r: Option<ReportedError>)
    ensures validator(cfg).None? ==> r.None?
    ensures validator(cfg).Some? ==> r == Some(Humanized(validator(cfg).value))
  {
    var e := validator(cfg);
    if e.None? {
      return None;
    }
    var h := HumanizeValidationError(e.value);
    return Some(h);
  }

  /**
   * A list of field errors becomes a `ValidationError` with one problem per
   * field error, in order; any other error is passed on unchanged.
   */
  lemma HumanizedSpec(err: ValidatorError)
    ensures Humanized(err).Raw? <==> !err.ValidationErrors?
    ensures Humanized(err).Raw? ==> Humanized(err).err == err
    ensures err.ValidationErrors? ==>
      && |Humanized(err).problems| == |err.fields|
      && forall k :: 0 <= k < |err.fields| ==>
        Humanized(err).problems[k] == Problem(ToConfigPath(err.fields[k].structNamespace), err.fields[k].tag)
  {
  }

  /** The leading "Config." is dropped, and the dots are left as they are. */
  lemma StripNamespaceOf(rest: string)
    requires rest != [] && rest[0] != 'C'
    ensures StripNamespace("Config." + rest) == rest
  {
    AppendParts("Config.", rest);
    ReplaceAllSelf(rest, ".");
  }

  lemma LowerGrowthBook(field: string)
    requires 'G' !in field
    ensures LowerSections("GrowthBook." + field) == "growthbook." + field
  {
    ReplaceAllAt([], "GrowthBook.", "growthbook.", field);
    assert [] + "GrowthBook." + field == "GrowthBook." + field;
    ReplaceAllMissing(field, "GrowthBook.", "growthbook.", 'G');
    assert [] + "growthbook." + field == "growthbook." + field;
    InAppend('G', "growthbook.", field);
    ReplaceAllMissing("growthbook." + field, "Generator.", "generator.", 'G');
  }

  lemma LowerGenerator(field: string)
    requires 'G' !in field && 'w' !in field
    ensures LowerSections("Generator." + field) == "generator." + field
  {
    InAppend('w', "Generator.", field);
    ReplaceAllMissing("Generator." + field, "GrowthBook.", "growthbook.", 'w');
    ReplaceAllAt([], "Generator.", "generator.", field);
    assert [] + "Generator." + field == "Generator." + field;
    ReplaceAllMissing(field, "Generator.", "generator.", 'G');
    assert [] + "generator." + field == "generator." + field;
  }

  /** A replacement at the end of a string whose front does not start the pattern. */
  lemma ReplaceLast(front: string, pat: string, rep: string)
    requires pat != [] && pat[0] !in front
    ensures ReplaceAll(front + pat, pat, rep) == front + rep
  {
    ReplaceAllAt(front, pat, rep, []);
    assert front + pat + [] == front + pat;
    assert front + rep + [] == front + rep;
  }

  /** A string without 'A' and without 'j' keeps through the GrowthBook field renames. */
  lemma KeepsClientFields(s: string)
    requires 'A' !in s && 'j' !in s
    ensures LowerClientFields(s) == s
  {
    ReplaceAllMissing(s, "APIBaseURL", "apiBaseURL", 'A');
    ReplaceAllMissing(s, "APIKey", "apiKey", 'A');
    ReplaceAllMissing(s, "ProjectID", "projectID", 'j');
  }

  /** A string without 'O' and without 'P' keeps through the generator field renames. */
  lemma KeepsOutputFields(s: string)
    requires 'O' !in s && 'P' !in s
    ensures LowerOutputFields(s) == s
  {
    ReplaceAllMissing(s, "OutputDir", "outputDir", 'O');
    ReplaceAllMissing(s, "PackageName", "packageName", 'P');
  }

  /** "growthbook." and a key free of 'O' and 'P' keep through the generator field renames. */
  lemma GrowthBookKeepsOutputFields(key: string)
    requires 'O' !in key && 'P' !in key
    ensures LowerOutputFields("growthbook." + key) == "growthbook." + key
  {
    InAppend('O', "growthbook.", key);
    InAppend('P', "growthbook.", key);
    KeepsOutputFields("growthbook." + key);
  }

  /** "generator." and a field free of 'A' and 'j' keep through the GrowthBook field renames. */
  lemma GeneratorKeepsClientFields(field: string)
    requires 'A' !in field && 'j' !in field
    ensures LowerClientFields("generator." + field) == "generator." + field
  {
    InAppend('A', "generator.", field);
    InAppend('j', "generator.", field);
    KeepsClientFields("generator." + field);
  }

  /** A rename at the end of `front`, followed by two renames whose patterns hold a character the result lacks. */
  lemma RenameThenKeep(front: string, field: string, key: string,
                       p2: string, r2: string, c2: char, p3: string, r3: string, c3: char)
    requires field != [] && field[0] !in front
    requires c2 in p2 && c2 !in front && c2 !in key
    requires c3 in p3 && c3 !in front && c3 !in key
    ensures ReplaceAll(ReplaceAll(ReplaceAll(front + field, field, key), p2, r2), p3, r3) == front + key
  {
    ReplaceLast(front, field, key);
    InAppend(c2, front, key);
    ReplaceAllMissing(front + key, p2, r2, c2);
    InAppend(c3, front, key);
    ReplaceAllMissing(front + key, p3, r3, c3);
  }

  /** A rename at the end of `front` between two renames whose patterns hold a character missing around it. */
  lemma KeepRenameKeep(front: string, field: string, key: string,
                       p1: string, r1: string, c1: char, p3: string, r3: string, c3: char)
    requires field != [] && field[0] !in front
    requires c1 in p1 && c1 !in front && c1 !in field
    requires c3 in p3 && c3 !in front && c3 !in key
    ensures ReplaceAll(ReplaceAll(ReplaceAll(front + field, p1, r1), field, key), p3, r3) == front + key
  {
    InAppend(c1, front, field);
    ReplaceAllMissing(front + field, p1, r1, c1);
    ReplaceLast(front, field, key);
    InAppend(c3, front, key);
    ReplaceAllMissing(front + key, p3, r3, c3);
  }

  lemma ClientBaseURL(field: string, key: string)
    requires field == "APIBaseURL" && key == "apiBaseURL"
    ensures LowerClientFields("growthbook." + field) == "growthbook." + key
  {
    RenameThenKeep("growthbook.", field, key, "APIKey", "apiKey", 'A', "ProjectID", "projectID", 'P');
  }

  lemma ClientAPIKey(field: string, key: string)
    requires field == "APIKey" && key == "apiKey"
    ensures LowerClientFields("growthbook." + field) == "growthbook." + key
  {
    KeepRenameKeep("growthbook.", field, key, "APIBaseURL", "apiBaseURL", 'B', "ProjectID", "projectID", 'P');
  }

  lemma OutputOutputDir(field: string, key: string)
    requires field == "OutputDir" && key == "outputDir"
    ensures LowerOutputFields("generator." + field) == "generator." + key
  {
    var t := "generator." + key;
    ReplaceLast("generator.", field, key);
    InAppend('P', "generator.", key);
    ReplaceAllMissing(t, "PackageName", "packageName", 'P');
  }

  lemma OutputPackageName(field: string, key: string)
    requires field == "PackageName" && key == "packageName"
    ensures LowerOutputFields("generator." + field) == "generator." + key
  {
    var s := "generator." + field;
    InAppend('O', "generator.", field);
    ReplaceAllMissing(s, "OutputDir", "outputDir", 'O');
    ReplaceLast("generator.", field, key);
  }

  lemma LowerBaseURL(field: string, key: string)
    requires field == "APIBaseURL" && key == "apiBaseURL"
    ensures LowerFields("growthbook." + field) == "growthbook." + key
  {
    ClientBaseURL(field, key);
    GrowthBookKeepsOutputFields(key);
  }

  lemma LowerAPIKey(field: string, key: string)
    requires field == "APIKey" && key == "apiKey"
    ensures LowerFields("growthbook." + field) == "growthbook." + key
  {
    ClientAPIKey(field, key);
    GrowthBookKeepsOutputFields(key);
  }

  lemma LowerOutputDir(field: string, key: string)
    requires field == "OutputDir" && key == "outputDir"
    ensures LowerFields("generator." + field) == "generator." + key
  {
    GeneratorKeepsClientFields(field);
    OutputOutputDir(field, key);
  }

  lemma LowerPackageName(field: string, key: string)
    requires field == "PackageName" && key == "packageName"
    ensures LowerFields("generator." + field) == "generator." + key
  {
    GeneratorKeepsClientFields(field);
    OutputPackageName(field, key);
  }

  /**
   * The struct namespaces of the four validated fields become the keys a
   * configuration file uses: `growthbook.apiBaseURL`, `growthbook.apiKey`,
   * `generator.outputDir` and `generator.packageName`.
   */
  lemma ToConfigPathBaseURL(field: string, key: string)
    requires field == "APIBaseURL" && key == "apiBaseURL"
    ensures ToConfigPath("Config." + ("GrowthBook." + field)) == "growthbook." + key
  {
    StripNamespaceOf("GrowthBook." + field);
    LowerGrowthBook(field);
    LowerBaseURL(field, key);
  }

  lemma ToConfigPathAPIKey(field: string, key: string)
    requires field == "APIKey" && key == "apiKey"
    ensures ToConfigPath("Config." + ("GrowthBook." + field)) == "growthbook." + key
  {
    StripNamespaceOf("GrowthBook." + field);
    LowerGrowthBook(field);
    LowerAPIKey(field, key);
  }

  lemma ToConfigPathOutputDir(field: string, key: string)
    requires field == "OutputDir" && key == "outputDir"
    ensures ToConfigPath("Config." + ("Generator." + field)) == "generator." + key
  {
    StripNamespaceOf("Generator." + field);
    LowerGenerator(field);
    LowerOutputDir(field, key);
  }

  lemma ToConfigPathPackageName(field: string, key: string)
    requires field == "PackageName" && key == "packageName"
    ensures ToConfigPath("Config." + ("Generator." + field)) == "generator." + key
  {
    StripNamespaceOf("Generator." + field);
    LowerGenerator(field);
    LowerPackageName(field, key);
  }
}
