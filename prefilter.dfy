/**
 * The build-time OpenAPI pre-filter (tools/openapi_prefilter/main.go): keeps
 * the operations carrying one tag, closes the components they reference,
 * and promotes the inline `valueType` enum into a named schema. Documents
 * are decoded YAML trees; maps are unordered, so every contract holds for
 * any iteration order.
 */
module Prefilter {
  import opened Wrappers
  import opened Text

  /** A decoded YAML node: a string, any other scalar, a list or a string-keyed map. */
  datatype Value =
    | Str(s: string)
    | Scalar(repr: string)
    | Arr(items: seq<Value>)
    | Obj(fields: map<string, Value>)

  /** A `map[string]any`. */
  type Doc = map<string, Value>

  const HttpMethods: set<string> := {"get", "put", "post", "delete", "options", "head", "patch", "trace"}
  const ComponentsPrefix := "#/components/"

  // ---------------------------------------------------------------------
  // operationHasTag, filterPathsByTag

  /** Some entry of the list is the string `tag`. */
  function ListHasString(items: seq<Value>, tag: string): bool {
    items != [] && (items[0] == Str(tag) || ListHasString(items[1..], tag))
  }

  /** `operationHasTag`: the operation's "tags" is a list holding `tag` as a string. */
  function OperationHasTag(op: Doc, tag: string): bool {
    "tags" in op && op["tags"].Arr? && ListHasString(op["tags"].items, tag)
  }

  lemma {:induction false} ListHasStringSpec(items: seq<Value>, tag: string)
    ensures ListHasString(items, tag) <==> exists i :: 0 <= i < |items| && items[i] == Str(tag)
  {
    if items != [] {
      ListHasStringSpec(items[1..], tag);
      if exists i :: 0 <= i < |items| && items[i] == Str(tag) {
        var i :| 0 <= i < |items| && items[i] == Str(tag);
        if i > 0 {
          assert items[1..][i - 1] == items[i];
        }
      }
      if exists i :: 0 <= i < |items[1..]| && items[1..][i] == Str(tag) {
        var i :| 0 <= i < |items[1..]| && items[1..][i] == Str(tag);
        assert items[i + 1] == Str(tag);
      }
    }
  }

  /**
   * An operation carries the tag exactly when its "tags" entry is a list
   * with the tag among its strings; a missing or non-list "tags" never does.
   */
  lemma OperationHasTagSpec(op: Doc, tag: string)
    ensures OperationHasTag(op, tag) <==>
      "tags" in op && op["tags"].Arr? && exists i :: 0 <= i < |op["tags"].items| && op["tags"].items[i] == Str(tag)
  {
    if "tags" in op && op["tags"].Arr? {
      ListHasStringSpec(op["tags"].items, tag);
    }
  }

  /** The key `k` of a path item is an HTTP method (in any case) whose operation carries the tag. */
  predicate KeptMethod(item: Doc, k: string, tag: string) {
    k in item && ToLower(k) in HttpMethods && item[k].Obj? && OperationHasTag(item[k].fields, tag)
  }

  /**
   * `out` is a filtered path item of `item`: its path-level "parameters" as
   * they were, and under each lower-cased HTTP method one of the tagged
   * operations spelled that way (the last one iterated, when several are).
   */
  predicate FilteredItem(item: Doc, tag: string, out: Doc) {
    && ("parameters" in out <==> "parameters" in item)
    && ("parameters" in item ==> out["parameters"] == item["parameters"])
    && (forall k | k in item && KeptMethod(item, k, tag) :: ToLower(k) in out)
    && (forall lk | lk in out && lk != "parameters" ::
          exists k | k in item :: KeptMethod(item, k, tag) && ToLower(k) == lk && out[lk] == item[k])
  }

  /** Nothing of the path item survives the filter. */
  predicate NothingKept(item: Doc, tag: string) {
    "parameters" !in item && forall k | k in item :: !KeptMethod(item, k, tag)
  }

  /** The body of the outer loop of `filterPathsByTag` for one map-valued path item. */
  method FilterItem(item: Doc, tag: string) returns (out: Doc)
    ensures FilteredItem(item, tag, out)
    ensures out == map[] <==> NothingKept(item, tag)
  {
    out := map[];
    if "parameters" in item {
      out := out["parameters" := item["parameters"]];
    }
    var todo := item.Keys;
    while todo != {}
      invariant todo <= item.Keys
      invariant "parameters" in out <==> "parameters" in item
      invariant "parameters" in item ==> out["parameters"] == item["parameters"]
      invariant forall k | k in item.Keys - todo && KeptMethod(item, k, tag) :: ToLower(k) in out
      invariant forall lk | lk in out && lk != "parameters" ::
        exists k | k in item :: KeptMethod(item, k, tag) && ToLower(k) == lk && out[lk] == item[k]
      decreases todo
    {
      var k :| k in todo;
      var lk := ToLower(k);
      if lk in HttpMethods {
        var op := item[k];
        if op.Obj? && OperationHasTag(op.fields, tag) {
          assert KeptMethod(item, k, tag);
          out := out[lk := op];
        }
      }
      todo := todo - {k};
    }
  }

  /**
   * `filterPathsByTag`: every map-valued path item is filtered, and a path
   * is kept exactly when its filtered item is not empty; other path items
   * are dropped.
   */
  method FilterPathsByTag(paths: Doc, tag: string) returns (out: Doc)
    ensures forall p | p in out :: p in paths && paths[p].Obj? && out[p].Obj? && FilteredItem(paths[p].fields, tag, out[p].fields)
    ensures forall p | p in paths :: p in out <==> paths[p].Obj? && !NothingKept(paths[p].fields, tag)
  {
    out := map[];
    var todo := paths.Keys;
    while todo != {}
      invariant todo <= paths.Keys
      invariant forall p | p in out ::
        p in paths.Keys - todo && paths[p].Obj? && out[p].Obj? && FilteredItem(paths[p].fields, tag, out[p].fields)
      invariant forall p | p in paths.Keys - todo :: p in out <==> paths[p].Obj? && !NothingKept(paths[p].fields, tag)
      decreases todo
    {
      var p :| p in todo;
      if paths[p].Obj? {
        var item := FilterItem(paths[p].fields, tag);
        if |item| > 0 {
          out := out[p := Obj(item)];
        }
      }
      todo := todo - {p};
    }
  }

  /**
   * A filtered path item holds nothing but the path-level "parameters" and
   * lower-case HTTP methods whose operations carry the tag.
   */
  lemma FilteredItemShape(item: Doc, tag: string, out: Doc)
    requires FilteredItem(item, tag, out)
    ensures forall lk | lk in out ::
      lk == "parameters" || (lk in HttpMethods && out[lk].Obj? && OperationHasTag(out[lk].fields, tag))
  {
    forall lk | lk in out && lk != "parameters"
      ensures lk in HttpMethods && out[lk].Obj? && OperationHasTag(out[lk].fields, tag)
    {
      var k :| k in item && KeptMethod(item, k, tag) && ToLower(k) == lk && out[lk] == item[k];
    }
  }

  // ---------------------------------------------------------------------
  // parseComponentRef

  /** A component reference "#/components/<section>/<name>". */
  datatype ComponentRef = ComponentRef(section: string, name: string)

  /** `parseComponentRef`. */
  function ParseComponentRef(ref: string): Option<ComponentRef> {
    var parts := Split(ref, '/');
    if |parts| != 4 then None
    else if parts[0] != "#" || parts[1] != "components" then None
    else Some(ComponentRef(parts[2], parts[3]))
  }

  /** The reference text of a component. */
  function RefText(c: ComponentRef): string {
    Join(["#", "components", c.section, c.name], "/")
  }

  /** What parses is exactly "#/components/<section>/<name>" with neither part holding a '/'. */
  lemma ParseComponentRefSound(ref: string)
    requires ParseComponentRef(ref).Some?
    ensures var c := ParseComponentRef(ref).value;
      ref == RefText(c) && '/' !in c.section && '/' !in c.name
  {
    var parts := Split(ref, '/');
    JoinSplit(ref, '/');
    assert parts == ["#", "components", parts[2], parts[3]];
  }

  /** Every "#/components/<section>/<name>" whose parts hold no '/' parses back to its parts. */
  lemma ParseComponentRefComplete(c: ComponentRef)
    requires '/' !in c.section && '/' !in c.name
    ensures ParseComponentRef(RefText(c)) == Some(c)
  {
    var xs := ["#", "components", c.section, c.name];
    assert '/' !in xs[0] && '/' !in xs[1];
    SplitJoin(xs, '/');
  }

  // ---------------------------------------------------------------------
  // walkAny

  /** The strings `walkAny` reports: the string "$ref" of every map in the tree. */
  function Refs(v: Value): set<string> {
    match v
    case Obj(m) =>
      (if "$ref" in m && m["$ref"].Str? then {m["$ref"].s} else {}) +
      (set k, r | k in m && r in Refs(m[k]) :: r)
    case Arr(xs) => set i, r | 0 <= i < |xs| && r in Refs(xs[i]) :: r
    case _ => {}
  }

  /** A map's own "$ref" string and everything reported below it are reported for the map. */
  lemma RefsOfObj(m: Doc)
    ensures "$ref" in m && m["$ref"].Str? ==> m["$ref"].s in Refs(Obj(m))
    ensures forall k | k in m :: Refs(m[k]) <= Refs(Obj(m))
  {
  }

  /** A list reports everything its items report, and nothing else. */
  lemma RefsOfArr(xs: seq<Value>)
    ensures forall r :: r in Refs(Arr(xs)) <==> exists i :: 0 <= i < |xs| && r in Refs(xs[i])
  {
  }

  // ---------------------------------------------------------------------
  // buildMinComponents

  /** `addRef` follows only references into the document's components. */
  predicate Wanted(ref: string) {
    HasPrefix(ref, ComponentsPrefix)
  }

  /** The references the filtered paths start the traversal with. */
  function Seeds(paths: Doc): set<string> {
    set r | r in Refs(Obj(paths)) && Wanted(r)
  }

  /** The component a reference names, when it parses and the component exists. */
  function Lookup(components: Doc, ref: string): Option<Value> {
    var c := ParseComponentRef(ref);
    if c.None? then None
    else if c.value.section in components && components[c.value.section].Obj? &&
            c.value.name in components[c.value.section].fields
    then Some(components[c.value.section].fields[c.value.name])
    else None
  }

  /** The references followed from one that resolves. */
  function Next(components: Doc, ref: string): set<string> {
    var v := Lookup(components, ref);
    if v.None? then {} else set r | r in Refs(v.value) && Wanted(r)
  }

  /** `S` holds the seeds and everything followed from each of its members. */
  ghost predicate Closed(components: Doc, seeds: set<string>, S: set<string>) {
    seeds <= S && forall r | r in S :: Next(components, r) <= S
  }

  predicate Distinct(q: seq<string>) {
    forall i, j | 0 <= i < j < |q| :: q[i] != q[j]
  }

  /** `out` holds the component `c` with the value `v`. */
  predicate Holds(out: Doc, c: ComponentRef, v: Value) {
    c.section in out && out[c.section].Obj? && c.name in out[c.section].fields && out[c.section].fields[c.name] == v
  }

  /** `v` is the input component `section`/`name`. */
  predicate FromComponents(components: Doc, section: string, name: string, v: Value) {
    section in components && components[section].Obj? && name in components[section].fields &&
    components[section].fields[name] == v
  }

  /**
   * `addRef` for every string `walkAny` reports on one tree, in any order:
   * each wanted reference not needed yet is marked needed and queued once.
   */
  method AddRefs(refs: set<string>, need: set<string>, queue: seq<string>)
    returns (need': set<string>, queue': seq<string>, ghost added: seq<string>)
    ensures need' == need + (set r | r in refs && Wanted(r))
    ensures queue' == queue + added
    ensures Distinct(added)
    ensures forall r :: r in added <==> r in refs && Wanted(r) && r !in need
  {
    need', queue' := need, queue;
    added := [];
    var todo := refs;
    while todo != {}
      invariant todo <= refs
      invariant need' == need + (set r | r in refs - todo && Wanted(r))
      invariant queue' == queue + added
      invariant Distinct(added)
      invariant forall r :: r in added <==> r in refs - todo && Wanted(r) && r !in need
      decreases todo
    {
      var r :| r in todo;
      if Wanted(r) && r !in need' {
        need' := need' + {r};
        queue' := queue' + [r];
        added := added + [r];
      }
      todo := todo - {r};
    }
  }

  lemma DistinctAppend(a: seq<string>, b: seq<string>)
    requires Distinct(a) && Distinct(b)
    requires forall x | x in b :: x !in a
    ensures Distinct(a + b)
  {
    forall i, j | 0 <= i < j < |a + b|
      ensures (a + b)[i] != (a + b)[j]
    {
      if i < |a| && j >= |a| {
        assert (a + b)[j] == b[j - |a|];
        assert b[j - |a|] in b;
      }
    }
  }

  /** Everything reported inside a component is reported for the whole components map. */
  lemma RefsOfEntry(components: Doc, section: string, name: string)
    requires section in components && components[section].Obj? && name in components[section].fields
    ensures Refs(components[section].fields[name]) <= Refs(Obj(components))
  {
    RefsOfObj(components[section].fields);
    RefsOfObj(components);
  }

  /** The bookkeeping of the traversal: needed = visited + queued, each reference queued once. */
  ghost predicate Frontier(needRefs: set<string>, seen: set<string>, queue: seq<string>, log: seq<string>) {
    && needRefs == seen + (set x | x in queue)
    && Distinct(log)
    && (forall r :: r in log <==> r in needRefs)
    && |queue| <= |log| && queue == log[|log| - |queue|..]
  }

  /**
   * What has been needed so far: the seeds, the references followed from
   * every visited one, and nothing outside any closed set.
   */
  ghost predicate Explored(paths: Doc, components: Doc, bound: set<string>, seen: set<string>, needRefs: set<string>) {
    && Seeds(paths) <= needRefs <= bound
    && (forall r | r in seen :: Next(components, r) <= needRefs)
    && (forall S | Closed(components, Seeds(paths), S) :: needRefs <= S)
  }

  /** Every visited reference that resolves is copied, and only visited components are. */
  ghost predicate Copied(components: Doc, out: Doc, seen: set<string>) {
    && (forall r | r in seen && Lookup(components, r).Some? ::
          Holds(out, ParseComponentRef(r).value, Lookup(components, r).value))
    && (forall section | section in out ::
          && out[section].Obj?
          && forall name | name in out[section].fields ::
               FromComponents(components, section, name, out[section].fields[name]) &&
               RefText(ComponentRef(section, name)) in seen)
  }

  /** Popping a reference changes nothing else when it was visited already or does not resolve. */
  lemma PopSkipped(components: Doc, out: Doc, seen: set<string>, needRefs: set<string>, queue: seq<string>, log: seq<string>)
    requires Frontier(needRefs, seen, queue, log) && |queue| > 0
    requires Copied(components, out, seen)
    requires queue[0] in seen || Lookup(components, queue[0]).None?
    ensures Frontier(needRefs, seen + {queue[0]}, queue[1..], log)
    ensures Copied(components, out, seen + {queue[0]})
  {
    assert queue[1..] == log[|log| - |queue[1..]|..];
    assert (set x | x in queue) == {queue[0]} + (set x | x in queue[1..]);
  }

  lemma PopSkippedExplored(paths: Doc, components: Doc, bound: set<string>, seen: set<string>, needRefs: set<string>, ref: string)
    requires Explored(paths, components, bound, seen, needRefs)
    requires ref in seen || Lookup(components, ref).None?
    ensures Explored(paths, components, bound, seen + {ref}, needRefs)
  {
  }

  /** After popping the head and queuing `added`, the queue is still the tail of the log. */
  lemma PopQueueTail(queue: seq<string>, log: seq<string>, added: seq<string>)
    requires |queue| > 0 && |queue| <= |log| && queue == log[|log| - |queue|..]
    ensures |queue[1..] + added| <= |log + added|
    ensures queue[1..] + added == (log + added)[|log + added| - |queue[1..] + added|..]
  {
    assert queue[1..] == log[|log| - |queue[1..]|..];
  }

  /** After popping the head and queuing exactly the newly needed references, needed = visited + queued. */
  lemma PopNeeded(seen: set<string>, needRefs: set<string>, queue: seq<string>, need': set<string>, added: seq<string>)
    requires |queue| > 0 && needRefs == seen + (set x | x in queue)
    requires forall r :: r in added <==> r in need' && r !in needRefs
    requires needRefs <= need'
    ensures need' == (seen + {queue[0]}) + (set x | x in queue[1..] + added)
  {
    assert (set x | x in queue) == {queue[0]} + (set x | x in queue[1..]);
    assert (set x | x in queue[1..] + added) == (set x | x in queue[1..]) + (set x | x in added);
  }

  /** Queuing the new references of a visited component keeps the bookkeeping. */
  lemma PopResolvedFrontier(
    seen: set<string>, needRefs: set<string>, queue: seq<string>, log: seq<string>,
    need': set<string>, queue': seq<string>, added: seq<string>)
    requires Frontier(needRefs, seen, queue, log) && |queue| > 0
    requires queue' == queue[1..] + added && Distinct(added)
    requires forall r :: r in added <==> r in need' && r !in needRefs
    requires needRefs <= need'
    ensures Frontier(need', seen + {queue[0]}, queue', log + added)
  {
    DistinctAppend(log, added);
    PopQueueTail(queue, log, added);
    PopNeeded(seen, needRefs, queue, need', added);
  }

  lemma PopResolvedExplored(
    paths: Doc, components: Doc, bound: set<string>, seen: set<string>, needRefs: set<string>,
    ref: string, obj: Value, need': set<string>)
    requires Explored(paths, components, bound, seen, needRefs)
    requires ref in needRefs && Lookup(components, ref) == Some(obj)
    requires need' == needRefs + (set r | r in Refs(obj) && Wanted(r))
    requires (set r | r in Refs(obj) && Wanted(r)) <= bound
    ensures Explored(paths, components, bound, seen + {ref}, need')
  {
    assert Next(components, ref) == set r | r in Refs(obj) && Wanted(r);
    forall S | Closed(components, Seeds(paths), S)
      ensures need' <= S
    {
      assert Next(components, ref) <= S;
    }
  }

  lemma PopResolvedCopied(
    components: Doc, out: Doc, seen: set<string>, ref: string, c: ComponentRef, obj: Value, dst: Doc)
    requires Copied(components, out, seen)
    requires ParseComponentRef(ref) == Some(c) && Lookup(components, ref) == Some(obj)
    requires dst == if c.section in out && out[c.section].Obj? then out[c.section].fields else map[]
    ensures Copied(components, out[c.section := Obj(dst[c.name := obj])], seen + {ref})
  {
    ParseComponentRefSound(ref);
    var out' := out[c.section := Obj(dst[c.name := obj])];
    forall r | r in seen + {ref} && Lookup(components, r).Some?
      ensures Holds(out', ParseComponentRef(r).value, Lookup(components, r).value)
    {
      if r != ref {
        var d := ParseComponentRef(r).value;
        if d == c {
          assert Lookup(components, r) == Some(obj);
        }
      }
    }
  }

  /** The sections of the visited references that resolve: the sections the traversal creates. */
  function ResolvedSections(components: Doc, seen: set<string>): set<string> {
    set r | r in seen && Lookup(components, r).Some? :: ParseComponentRef(r).value.section
  }

  /** Visiting a reference that was visited already or does not resolve creates no section. */
  lemma ResolvedSectionsSkip(components: Doc, out: Doc, seen: set<string>, ref: string)
    requires out.Keys == ResolvedSections(components, seen)
    requires ref in seen || Lookup(components, ref).None?
    ensures out.Keys == ResolvedSections(components, seen + {ref})
  {
  }

  /** Visiting a reference that resolves creates or extends its section, and no other. */
  lemma ResolvedSectionsAdd(components: Doc, out: Doc, seen: set<string>, ref: string, c: ComponentRef, v: Value)
    requires out.Keys == ResolvedSections(components, seen)
    requires ParseComponentRef(ref) == Some(c) && Lookup(components, ref).Some?
    ensures out[c.section := v].Keys == ResolvedSections(components, seen + {ref})
  {
    assert c.section in ResolvedSections(components, seen + {ref});
  }

  /** The needed set only grows within the bound, and grows whenever something was queued. */
  lemma NeededGrows(bound: set<string>, needRefs: set<string>, need': set<string>, added: seq<string>)
    requires needRefs <= need' <= bound
    requires forall r :: r in added <==> r in need' && r !in needRefs
    ensures added == [] ==> bound - need' == bound - needRefs
    ensures added != [] ==> bound - need' < bound - needRefs
  {
    if added != [] {
      assert added[0] in bound - needRefs;
      assert added[0] !in bound - need';
    }
  }

  /**
   * One round of the loop of `buildMinComponents`: the head of the queue is
   * popped and, unless already visited, marked visited; when it resolves to
   * a component, that component is copied and its references are queued.
   */
  method Visit(paths: Doc, components: Doc, ghost bound: set<string>,
               out: Doc, seen: set<string>, needRefs: set<string>, queue: seq<string>, ghost log: seq<string>)
    returns (out': Doc, seen': set<string>, need': set<string>, queue': seq<string>, ghost log': seq<string>)
    requires |queue| > 0
    requires Frontier(needRefs, seen, queue, log)
    requires Explored(paths, components, bound, seen, needRefs)
    requires Copied(components, out, seen)
    requires out.Keys == ResolvedSections(components, seen)
    requires bound == set r | r in Refs(Obj(paths)) + Refs(Obj(components)) && Wanted(r)
    ensures Frontier(need', seen', queue', log')
    ensures Explored(paths, components, bound, seen', need')
    ensures Copied(components, out', seen')
    ensures out'.Keys == ResolvedSections(components, seen')
    ensures (bound - need' == bound - needRefs && |queue'| < |queue|) || bound - need' < bound - needRefs
  {
    var ref := queue[0];
    var found := Lookup(components, ref);
    if ref in seen || found.None? {
      PopSkipped(components, out, seen, needRefs, queue, log);
      PopSkippedExplored(paths, components, bound, seen, needRefs, ref);
      ResolvedSectionsSkip(components, out, seen, ref);
      return out, seen + {ref}, needRefs, queue[1..], log;
    }
    var c := ParseComponentRef(ref).value;
    out', seen', need', queue', log' := VisitResolved(paths, components, bound, out, seen, needRefs, queue, log, c, found.value);
  }

  /**
   * The rest of a round when the popped reference names a component: copy
   * it into its (new or existing) output section and queue its references.
   */
  method VisitResolved(paths: Doc, components: Doc, ghost bound: set<string>,
                       out: Doc, seen: set<string>, needRefs: set<string>, queue: seq<string>, ghost log: seq<string>,
                       c: ComponentRef, obj: Value)
    returns (out': Doc, seen': set<string>, need': set<string>, queue': seq<string>, ghost log': seq<string>)
    requires |queue| > 0 && queue[0] !in seen
    requires ParseComponentRef(queue[0]) == Some(c) && Lookup(components, queue[0]) == Some(obj)
    requires Frontier(needRefs, seen, queue, log)
    requires Explored(paths, components, bound, seen, needRefs)
    requires Copied(components, out, seen)
    requires out.Keys == ResolvedSections(components, seen)
    requires bound == set r | r in Refs(Obj(paths)) + Refs(Obj(components)) && Wanted(r)
    ensures Frontier(need', seen', queue', log')
    ensures Explored(paths, components, bound, seen', need')
    ensures Copied(components, out', seen')
    ensures out'.Keys == ResolvedSections(components, seen')
    ensures (bound - need' == bound - needRefs && |queue'| < |queue|) || bound - need' < bound - needRefs
  {
    var ref := queue[0];
    var dst: Doc := if c.section in out && out[c.section].Obj? then out[c.section].fields else map[];
    PopResolvedCopied(components, out, seen, ref, c, obj, dst);
    ResolvedSectionsAdd(components, out, seen, ref, c, Obj(dst[c.name := obj]));
    out' := out[c.section := Obj(dst[c.name := obj])];
    RefsOfEntry(components, c.section, c.name);
    ghost var added;
    need', queue', added := AddRefs(Refs(obj), needRefs, queue[1..]);
    PopResolvedFrontier(seen, needRefs, queue, log, need', queue', added);
    PopResolvedExplored(paths, components, bound, seen, needRefs, ref, obj, need');
    NeededGrows(bound, needRefs, need', added);
    seen' := seen + {ref};
    log' := log + added;
  }

  /**
   * The breadth-first part of `buildMinComponents`: starting from the
   * wanted references of the filtered paths, each queued reference is
   * visited once, and one that resolves is copied into `out` and has its own
   * references queued. `reached` is the set of visited references and `log`
   * the order in which references were queued.
   */
  method ResolveRefs(paths: Doc, components: Doc)
    returns (out: Doc, ghost reached: set<string>, ghost log: seq<string>)
    ensures Closed(components, Seeds(paths), reached)
    ensures forall S | Closed(components, Seeds(paths), S) :: reached <= S
    ensures forall r | r in reached :: Wanted(r)
    ensures Distinct(log) && forall r :: r in log <==> r in reached
    ensures Copied(components, out, reached)
    ensures out.Keys == ResolvedSections(components, reached)
  {
    out := map[];
    ghost var bound := set r | r in Refs(Obj(paths)) + Refs(Obj(components)) && Wanted(r);
    var needRefs, queue;
    needRefs, queue, log := AddRefs(Refs(Obj(paths)), {}, []);
    var seen: set<string> := {};
    while |queue| > 0
      invariant Frontier(needRefs, seen, queue, log)
      invariant Explored(paths, components, bound, seen, needRefs)
      invariant Copied(components, out, seen)
      invariant out.Keys == ResolvedSections(components, seen)
      decreases bound - needRefs, |queue|
    {
      out, seen, needRefs, queue, log := Visit(paths, components, bound, out, seen, needRefs, queue, log);
    }
    reached := seen;
  }

  // ---------------------------------------------------------------------
  // referencedSecuritySchemes

  /** `collect`: the keys of every map in a "security" list; a value that is not a list gives none. */
  function SchemeNames(sec: Value): set<string> {
    if sec.Arr? then set i, k | 0 <= i < |sec.items| && sec.items[i].Obj? && k in sec.items[i].fields :: k
    else {}
  }

  /** `scanSecurity`: the scheme names of every "security" entry anywhere in the tree. */
  function ScanSecurity(v: Value): set<string> {
    match v
    case Obj(m) =>
      (if "security" in m then SchemeNames(m["security"]) else {}) +
      (set k, n | k in m && n in ScanSecurity(m[k]) :: n)
    case Arr(xs) => set i, n | 0 <= i < |xs| && n in ScanSecurity(xs[i]) :: n
    case _ => {}
  }

  /** `referencedSecuritySchemes`: the document-wide requirement and every one under the kept paths. */
  function ReferencedSecuritySchemes(fullDoc: Doc, paths: Doc): set<string> {
    (if "security" in fullDoc then SchemeNames(fullDoc["security"]) else {}) + ScanSecurity(Obj(paths))
  }

  /** The schemes a kept operation requires, and those the whole document requires, are all collected. */
  lemma OperationSecurityCollected(fullDoc: Doc, paths: Doc, p: string, m: string)
    requires p in paths && paths[p].Obj? && m in paths[p].fields && paths[p].fields[m].Obj?
    ensures "security" in paths[p].fields[m].fields ==>
      SchemeNames(paths[p].fields[m].fields["security"]) <= ReferencedSecuritySchemes(fullDoc, paths)
    ensures "security" in fullDoc ==> SchemeNames(fullDoc["security"]) <= ReferencedSecuritySchemes(fullDoc, paths)
  {
    var item := paths[p].fields;
    assert ScanSecurity(item[m]) <= ScanSecurity(paths[p]);
    assert ScanSecurity(paths[p]) <= ScanSecurity(Obj(paths));
  }

  /** A scheme is named by a "security" list exactly when some map in it has that key. */
  lemma SchemeNamesSpec(xs: seq<Value>, n: string)
    ensures n in SchemeNames(Arr(xs)) <==> exists i :: 0 <= i < |xs| && xs[i].Obj? && n in xs[i].fields
  {
  }

  /** The last loop of `buildMinComponents`: each needed scheme the input defines is copied over `dst`. */
  method CopyNamed(dst: Doc, src: Doc, names: set<string>) returns (r: Doc)
    ensures r == dst + map n | n in names && n in src :: src[n]
  {
    r := dst;
    var todo := names;
    while todo != {}
      invariant todo <= names
      invariant r == dst + map n | n in names - todo && n in src :: src[n]
      decreases todo
    {
      var n :| n in todo;
      if n in src {
        r := r[n := src[n]];
      }
      todo := todo - {n};
    }
  }

  const SecuritySchemes := "securitySchemes"

  /**
   * Every entry of `out` is the same entry of the input components, and was
   * either reached by the traversal or is one of the needed security schemes.
   */
  ghost predicate OnlyFromInput(components: Doc, out: Doc, reached: set<string>, names: set<string>) {
    forall section | section in out ::
      && out[section].Obj?
      && forall name | name in out[section].fields ::
           FromComponents(components, section, name, out[section].fields[name]) &&
           (RefText(ComponentRef(section, name)) in reached || (section == SecuritySchemes && name in names))
  }

  /** Every reached reference that resolves is held by `out` with the input's value. */
  ghost predicate HoldsReached(components: Doc, out: Doc, reached: set<string>) {
    forall r | r in reached && Lookup(components, r).Some? ::
      Holds(out, ParseComponentRef(r).value, Lookup(components, r).value)
  }

  /** What the traversal copied is only what the input components hold. */
  lemma CopiedOnlyFromInput(components: Doc, out: Doc, reached: set<string>, names: set<string>)
    requires Copied(components, out, reached)
    ensures OnlyFromInput(components, out, reached, names) && HoldsReached(components, out, reached)
  {
  }

  /** Copying the needed schemes over the traversal's output keeps what the traversal copied. */
  lemma SchemesKeepCopied(components: Doc, out: Doc, reached: set<string>, names: set<string>, dst: Doc, copied: Doc)
    requires Copied(components, out, reached)
    requires SecuritySchemes in components && components[SecuritySchemes].Obj?
    requires dst == if SecuritySchemes in out && out[SecuritySchemes].Obj? then out[SecuritySchemes].fields else map[]
    requires copied == dst + map n | n in names && n in components[SecuritySchemes].fields :: components[SecuritySchemes].fields[n]
    ensures HoldsReached(components, out[SecuritySchemes := Obj(copied)], reached)
    ensures OnlyFromInput(components, out[SecuritySchemes := Obj(copied)], reached, names)
  {
    var out' := out[SecuritySchemes := Obj(copied)];
    forall r | r in reached && Lookup(components, r).Some?
      ensures Holds(out', ParseComponentRef(r).value, Lookup(components, r).value)
    {
      var c := ParseComponentRef(r).value;
      assert Holds(out, c, Lookup(components, r).value);
    }
  }

  /** Every needed scheme the input defines is held by `out` with the input's value. */
  ghost predicate HoldsSchemes(components: Doc, out: Doc, names: set<string>) {
    SecuritySchemes in components && components[SecuritySchemes].Obj? ==>
      forall n | n in names && n in components[SecuritySchemes].fields ::
        Holds(out, ComponentRef(SecuritySchemes, n), components[SecuritySchemes].fields[n])
  }

  /**
   * The "securitySchemes" section the security part creates or extends: there
   * is one whenever some scheme is needed and the input has a
   * "securitySchemes" map, even when that map defines none of them.
   */
  function SchemesSection(components: Doc, names: set<string>): set<string> {
    if |names| > 0 && SecuritySchemes in components && components[SecuritySchemes].Obj? then {SecuritySchemes} else {}
  }

  /**
   * The security part of `buildMinComponents`: when some scheme is needed
   * and the input has a "securitySchemes" map, the needed ones it defines
   * are added to the output's (new or existing) "securitySchemes" section.
   */
  method AddSchemes(components: Doc, out: Doc, ghost reached: set<string>, names: set<string>) returns (out': Doc)
    requires Copied(components, out, reached)
    ensures HoldsReached(components, out', reached)
    ensures OnlyFromInput(components, out', reached, names)
    ensures HoldsSchemes(components, out', names)
    ensures out'.Keys == out.Keys + SchemesSection(components, names)
  {
    out' := out;
    CopiedOnlyFromInput(components, out, reached, names);
    if |names| > 0 && SecuritySchemes in components && components[SecuritySchemes].Obj? {
      var dst: Doc := if SecuritySchemes in out && out[SecuritySchemes].Obj? then out[SecuritySchemes].fields else map[];
      var copied := CopyNamed(dst, components[SecuritySchemes].fields, names);
      SchemesKeepCopied(components, out, reached, names, dst, copied);
      out' := out[SecuritySchemes := Obj(copied)];
    }
  }

  /**
   * `buildMinComponents`: without input components the result is empty;
   * otherwise it holds the component every reached reference names, the
   * needed security schemes, and nothing that is not the same entry of the
   * input components. `reached` is the least closed set of references.
   */
  method BuildMinComponents(paths: Doc, components: Doc, fullDoc: Doc) returns (out: Doc, ghost reached: set<string>)
    ensures |components| == 0 ==> out == map[]
    ensures |components| > 0 ==> Closed(components, Seeds(paths), reached)
    ensures |components| > 0 ==> forall S | Closed(components, Seeds(paths), S) :: reached <= S
    ensures |components| > 0 ==> HoldsReached(components, out, reached)
    ensures OnlyFromInput(components, out, reached, ReferencedSecuritySchemes(fullDoc, paths))
    ensures HoldsSchemes(components, out, ReferencedSecuritySchemes(fullDoc, paths))
    ensures |components| > 0 ==>
      out.Keys == ResolvedSections(components, reached) + SchemesSection(components, ReferencedSecuritySchemes(fullDoc, paths))
  {
    if |components| == 0 {
      return map[], {};
    }
    ghost var log;
    out, reached, log := ResolveRefs(paths, components);
    out := AddSchemes(components, out, reached, ReferencedSecuritySchemes(fullDoc, paths));
  }

  // ---------------------------------------------------------------------
  // enumStrings

  /** The non-empty strings of a list, in order. */
  function NonEmptyStrings(xs: seq<Value>): (r: seq<string>)
    ensures forall i | 0 <= i < |r| :: r[i] != ""
    ensures |r| <= |xs|
  {
    if xs == [] then []
    else
      var last := xs[|xs| - 1];
      NonEmptyStrings(xs[..|xs| - 1]) + (if last.Str? && last.s != "" then [last.s] else [])
  }

  /** The values of a schema's "enum" list; nothing when it is missing or not a list. */
  function EnumValues(schema: Doc): seq<string> {
    if "enum" in schema && schema["enum"].Arr? then NonEmptyStrings(schema["enum"].items) else []
  }

  /** Filtering a concatenation concatenates the filtered parts: the order is kept. */
  lemma {:induction false} NonEmptyStringsAppend(xs: seq<Value>, ys: seq<Value>)
    ensures NonEmptyStrings(xs + ys) == NonEmptyStrings(xs) + NonEmptyStrings(ys)
  {
    if ys != [] {
      var init := ys[..|ys| - 1];
      assert (xs + ys)[..|xs + ys| - 1] == xs + init;
      NonEmptyStringsAppend(xs, init);
    } else {
      assert xs + ys == xs;
    }
  }

  /** A string is kept exactly when it is a non-empty string entry of the list. */
  lemma {:induction false} NonEmptyStringsSpec(xs: seq<Value>)
    ensures forall s :: s in NonEmptyStrings(xs) <==> s != "" && Str(s) in xs
  {
    if xs != [] {
      var init := xs[..|xs| - 1];
      NonEmptyStringsSpec(init);
      assert xs == init + [xs[|xs| - 1]];
    }
  }

  /** `enumStrings`: the loop that keeps the non-empty string entries of "enum". */
  method EnumStrings(schema: Doc) returns (out: seq<string>)
    ensures out == EnumValues(schema)
  {
    out := [];
    if "enum" !in schema || !schema["enum"].Arr? || |schema["enum"].items| == 0 {
      return;
    }
    var items := schema["enum"].items;
    var i := 0;
    while i < |items|
      invariant 0 <= i <= |items|
      invariant out == NonEmptyStrings(items[..i])
    {
      assert items[..i + 1][..i] == items[..i];
      var v := items[i];
      if v.Str? && v.s != "" {
        out := out + [v.s];
      }
      i := i + 1;
    }
    assert items[..i] == items;
  }

  // ---------------------------------------------------------------------
  // findInlineValueTypeEnumValues, rewriteInlineValueTypeEnums

  /** The `properties.valueType` map of a schema when its "type" is the string "string". */
  function StringValueType(m: Doc): Option<Doc> {
    if "properties" in m && m["properties"].Obj? && "valueType" in m["properties"].fields &&
       m["properties"].fields["valueType"].Obj?
    then
      var vt := m["properties"].fields["valueType"].fields;
      if "type" in vt && vt["type"] == Str("string") then Some(vt) else None
    else None
  }

  /** The inline string enum of `properties.valueType`; empty when there is none. */
  function InlineEnum(m: Doc): seq<string> {
    var vt := StringValueType(m);
    if vt.Some? then EnumValues(vt.value) else []
  }

  /** Every non-empty inline `valueType` enum of the maps in the tree. */
  function Candidates(v: Value): set<seq<string>> {
    match v
    case Obj(m) =>
      (if InlineEnum(m) != [] then {InlineEnum(m)} else {}) +
      (set k, c | k in m && c in Candidates(m[k]) :: c)
    case Arr(xs) => set i, c | 0 <= i < |xs| && c in Candidates(xs[i]) :: c
    case _ => {}
  }

  /**
   * `findInlineValueTypeEnumValues`: the first inline enum met in a
   * depth-first walk (a map's own before its children's). Maps are walked in
   * no fixed order, so which one is met first among several is not fixed.
   */
  method FindInline(v: Value) returns (found: seq<string>)
    ensures found == [] <==> Candidates(v) == {}
    ensures found != [] ==> found in Candidates(v)
    ensures v.Obj? && InlineEnum(v.fields) != [] ==> found == InlineEnum(v.fields)
    ensures v.Arr? && found != [] ==> exists j | 0 <= j < |v.items| ::
      found in Candidates(v.items[j]) && forall i | 0 <= i < j :: Candidates(v.items[i]) == {}
    ensures forall i | 0 <= i < |found| :: found[i] != ""
    decreases v, 1
  {
    match v {
      case Obj(m) =>
        var vt := StringValueType(m);
        if vt.Some? {
          found := EnumStrings(vt.value);
          if found != [] {
            return;
          }
        }
        found := FindInlineFields(v, m);
      case Arr(xs) =>
        found := FindInlineItems(v, xs);
      case _ =>
        found := [];
    }
  }

  /** The walk over a map's values, in no fixed order. */
  method FindInlineFields(ghost v: Value, m: Doc) returns (found: seq<string>)
    requires v == Obj(m)
    ensures found == [] <==> forall k | k in m :: Candidates(m[k]) == {}
    ensures found != [] ==> exists k | k in m :: found in Candidates(m[k])
    ensures forall i | 0 <= i < |found| :: found[i] != ""
    decreases v, 0
  {
    var todo := m.Keys;
    while todo != {}
      invariant todo <= m.Keys
      invariant forall k | k in m.Keys - todo :: Candidates(m[k]) == {}
      decreases todo
    {
      var k :| k in todo;
      found := FindInline(m[k]);
      if found != [] {
        return;
      }
      todo := todo - {k};
    }
    found := [];
  }

  /** The walk over a list's items, in order. */
  method FindInlineItems(ghost v: Value, xs: seq<Value>) returns (found: seq<string>)
    requires v == Arr(xs)
    ensures found == [] <==> forall j | 0 <= j < |xs| :: Candidates(xs[j]) == {}
    ensures found != [] ==> exists j | 0 <= j < |xs| ::
      found in Candidates(xs[j]) && forall i | 0 <= i < j :: Candidates(xs[i]) == {}
    ensures forall i | 0 <= i < |found| :: found[i] != ""
    decreases v, 0
  {
    var i := 0;
    while i < |xs|
      invariant 0 <= i <= |xs|
      invariant forall j | 0 <= j < i :: Candidates(xs[j]) == {}
    {
      found := FindInline(xs[i]);
      if found != [] {
        assert found in Candidates(xs[i]) && forall j | 0 <= j < i :: Candidates(xs[j]) == {};
        return;
      }
      i := i + 1;
    }
    found := [];
  }

  /** The node an inline enum is replaced with. */
  function RefNode(ref: string): Value {
    Obj(map["$ref" := Str(ref)])
  }

  /** The tree after `rewriteInlineValueTypeEnums`. */
  function Rewrite(v: Value, ref: string): Value
    decreases v, 1
  {
    match v
    case Obj(m) => Obj(RewriteFields(m, false, ref))
    case Arr(xs) => Arr(seq(|xs|, i requires 0 <= i < |xs| => Rewrite(xs[i], ref)))
    case _ => v
  }

  /**
   * The rewritten entries of a map. `isProps` marks a "properties" map whose
   * "valueType" the enclosing schema has just replaced with the reference
   * node; every other entry is rewritten in turn.
   */
  function RewriteFields(m: Doc, isProps: bool, ref: string): Doc
    decreases Obj(m), 0
  {
    map k | k in m ::
      if isProps && k == "valueType" then RefNode(ref)
      else if k == "properties" && InlineEnum(m) != [] then Obj(RewriteFields(m[k].fields, true, ref))
      else Rewrite(m[k], ref)
  }

  /**
   * `rewriteInlineValueTypeEnums` on a value: maps are rewritten entry by
   * entry and lists item by item.
   */
  method RewriteValue(v: Value, ref: string) returns (r: Value)
    ensures r == Rewrite(v, ref)
    decreases v, 1
  {
    match v {
      case Obj(m) =>
        var m' := RewriteMap(m, false, ref);
        r := Obj(m');
      case Arr(xs) =>
        var ys: seq<Value> := [];
        var i := 0;
        while i < |xs|
          invariant 0 <= i <= |xs| && |ys| == i
          invariant forall j | 0 <= j < i :: ys[j] == Rewrite(xs[j], ref)
        {
          var y := RewriteValue(xs[i], ref);
          ys := ys + [y];
          i := i + 1;
        }
        r := Arr(ys);
      case _ =>
        r := v;
    }
  }

  /**
   * `rewriteInlineValueTypeEnums` on a map: an inline string enum under
   * `properties.valueType` becomes the reference node, then every entry is
   * rewritten.
   */
  method RewriteMap(m: Doc, isProps: bool, ref: string) returns (r: Doc)
    ensures r == RewriteFields(m, isProps, ref)
    decreases Obj(m), 0
  {
    r := m;
    var todo := m.Keys;
    while todo != {}
      invariant todo <= m.Keys && r.Keys == m.Keys
      invariant forall k | k in m.Keys - todo :: r[k] == RewriteFields(m, isProps, ref)[k]
      decreases todo
    {
      var k :| k in todo;
      var nv;
      if isProps && k == "valueType" {
        nv := RefNode(ref);
      } else if k == "properties" && InlineEnum(m) != [] {
        var props := RewriteMap(m[k].fields, true, ref);
        nv := Obj(props);
      } else {
        nv := RewriteValue(m[k], ref);
      }
      r := r[k := nv];
      todo := todo - {k};
    }
  }

  /** The rewrite keeps strings as they are and keeps every node's kind. */
  lemma RewriteKind(v: Value, ref: string)
    ensures v.Str? || v.Scalar? ==> Rewrite(v, ref) == v
    ensures Rewrite(v, ref).Obj? <==> v.Obj?
    ensures Rewrite(v, ref).Arr? <==> v.Arr?
  {
  }

  /** Lists that agree on which items are strings, and on those strings, keep the same enum values. */
  lemma {:induction false} NonEmptyStringsSameStrings(xs: seq<Value>, ys: seq<Value>)
    requires |xs| == |ys|
    requires forall i | 0 <= i < |xs| :: (xs[i].Str? <==> ys[i].Str?) && (xs[i].Str? ==> xs[i] == ys[i])
    ensures NonEmptyStrings(xs) == NonEmptyStrings(ys)
  {
    if xs != [] {
      NonEmptyStringsSameStrings(xs[..|xs| - 1], ys[..|ys| - 1]);
    }
  }

  /** Rewriting a schema map leaves its enum values unchanged. */
  lemma EnumValuesRewritten(vt: Doc, ref: string)
    ensures EnumValues(RewriteFields(vt, false, ref)) == EnumValues(vt)
  {
    if "enum" in vt && vt["enum"].Arr? {
      var xs := vt["enum"].items;
      var ys := Rewrite(vt["enum"], ref).items;
      forall i | 0 <= i < |xs|
        ensures (xs[i].Str? <==> ys[i].Str?) && (xs[i].Str? ==> xs[i] == ys[i])
      {
        RewriteKind(xs[i], ref);
      }
      NonEmptyStringsSameStrings(xs, ys);
    } else if "enum" in vt {
      RewriteKind(vt["enum"], ref);
    }
  }

  /** After the rewrite a map has no inline string enum of its own left. */
  lemma InlineEnumCleared(m: Doc, isProps: bool, ref: string)
    ensures InlineEnum(RewriteFields(m, isProps, ref)) == []
  {
    var m' := RewriteFields(m, isProps, ref);
    if "properties" in m && InlineEnum(m) == [] {
      var p := m["properties"];
      RewriteKind(p, ref);
      if p.Obj? && "valueType" in p.fields {
        var vt := p.fields["valueType"];
        RewriteKind(vt, ref);
        if vt.Obj? && "type" in vt.fields {
          RewriteKind(vt.fields["type"], ref);
          EnumValuesRewritten(vt.fields, ref);
        }
      }
    }
  }

  /** The reference node holds no inline enum and is left as it is by the rewrite. */
  lemma RefNodeFixed(ref: string, ref': string)
    ensures Candidates(RefNode(ref)) == {}
    ensures Rewrite(RefNode(ref), ref') == RefNode(ref)
  {
    assert RewriteFields(RefNode(ref).fields, false, ref') == RefNode(ref).fields;
  }

  /** After the rewrite no inline string enum is left anywhere in the tree. */
  lemma {:induction false} RewriteClears(v: Value, ref: string)
    ensures Candidates(Rewrite(v, ref)) == {}
    decreases v, 1
  {
    match v {
      case Obj(m) =>
        RewriteFieldsClears(m, false, ref);
      case Arr(xs) =>
        var ys := Rewrite(v, ref).items;
        forall i | 0 <= i < |ys|
          ensures Candidates(ys[i]) == {}
        {
          RewriteClears(xs[i], ref);
        }
      case _ =>
    }
  }

  lemma {:induction false} RewriteFieldsClears(m: Doc, isProps: bool, ref: string)
    ensures Candidates(Obj(RewriteFields(m, isProps, ref))) == {}
    decreases Obj(m), 0
  {
    var m' := RewriteFields(m, isProps, ref);
    InlineEnumCleared(m, isProps, ref);
    forall k | k in m'
      ensures Candidates(m'[k]) == {}
    {
      if isProps && k == "valueType" {
        RefNodeFixed(ref, ref);
      } else if k == "properties" && InlineEnum(m) != [] {
        assert Obj(m[k].fields) == m[k];
        RewriteFieldsClears(m[k].fields, true, ref);
      } else {
        RewriteClears(m[k], ref);
      }
    }
  }

  /** A tree without inline string enums is left exactly as it is. */
  lemma {:induction false} RewriteNoCandidates(v: Value, ref: string)
    requires Candidates(v) == {}
    ensures Rewrite(v, ref) == v
    decreases v, 1
  {
    match v {
      case Obj(m) =>
        RewriteFieldsNoCandidates(m, ref);
      case Arr(xs) =>
        forall i | 0 <= i < |xs|
          ensures Rewrite(xs[i], ref) == xs[i]
        {
          assert Candidates(xs[i]) <= Candidates(v);
          RewriteNoCandidates(xs[i], ref);
        }
        assert Rewrite(v, ref).items == xs;
      case _ =>
    }
  }

  lemma {:induction false} RewriteFieldsNoCandidates(m: Doc, ref: string)
    requires Candidates(Obj(m)) == {}
    ensures RewriteFields(m, false, ref) == m
    decreases Obj(m), 0
  {
    forall k | k in m
      ensures RewriteFields(m, false, ref)[k] == m[k]
    {
      assert Candidates(m[k]) <= Candidates(Obj(m));
      RewriteNoCandidates(m[k], ref);
    }
  }

  /** Rewriting twice is rewriting once. */
  lemma RewriteIdempotent(v: Value, ref: string)
    ensures Rewrite(Rewrite(v, ref), ref) == Rewrite(v, ref)
  {
    RewriteClears(v, ref);
    RewriteNoCandidates(Rewrite(v, ref), ref);
  }

  /** An inline string enum is replaced by the reference node and nothing else of its schema changes. */
  lemma RewriteReplacesInline(m: Doc, ref: string)
    requires InlineEnum(m) != []
    ensures var m' := RewriteFields(m, false, ref);
      && "properties" in m' && m'["properties"].Obj?
      && m'["properties"].fields.Keys == m["properties"].fields.Keys
      && m'["properties"].fields["valueType"] == RefNode(ref)
  {
  }

  // ---------------------------------------------------------------------
  // promoteValueTypeEnum

  const FeatureValueType := "FeatureValueType"
  const ValueTypeRef := "#/components/schemas/FeatureValueType"
  const ValueTypeDescription := "The data type of the feature payload."

  /** `stringSliceToAny`. */
  function StrList(values: seq<string>): (r: seq<Value>)
    ensures |r| == |values| && forall i | 0 <= i < |r| :: r[i] == Str(values[i])
  {
    seq(|values|, i requires 0 <= i < |values| => Str(values[i]))
  }

  /** The named enum schema `promoteValueTypeEnum` adds. */
  function EnumSchema(values: seq<string>): Value {
    Obj(map["type" := Str("string"), "description" := Str(ValueTypeDescription), "enum" := Arr(StrList(values))])
  }

  /** A document whose components map is not empty. */
  predicate HasComponents(doc: Doc) {
    "components" in doc && doc["components"].Obj? && |doc["components"].fields| > 0
  }

  /** The components' "schemas" map; empty when it is missing or not a map. */
  function Schemas(doc: Doc): Doc
    requires HasComponents(doc)
  {
    var cs := doc["components"].fields;
    if "schemas" in cs && cs["schemas"].Obj? then cs["schemas"].fields else map[]
  }

  /** The document with the components' "schemas" set to `schemas`. */
  function WithSchemas(doc: Doc, schemas: Doc): (r: Doc)
    requires HasComponents(doc)
    ensures HasComponents(r) && Schemas(r) == schemas && r.Keys == doc.Keys
  {
    doc["components" := Obj(doc["components"].fields["schemas" := Obj(schemas)])]
  }

  /** The schemas with `FeatureValueType` added when it is not already there. */
  function WithValueType(schemas: Doc, values: seq<string>): (r: Doc)
    ensures FeatureValueType in r
    ensures forall k | k in schemas :: k in r && r[k] == schemas[k]
    ensures FeatureValueType !in schemas ==> r[FeatureValueType] == EnumSchema(values)
  {
    if FeatureValueType in schemas then schemas else schemas[FeatureValueType := EnumSchema(values)]
  }

  /** The values of an existing `FeatureValueType` map schema; empty when there is none. */
  function ExistingValues(schemas: Doc): seq<string> {
    if FeatureValueType in schemas && schemas[FeatureValueType].Obj? then EnumValues(schemas[FeatureValueType].fields) else []
  }

  /**
   * `promoteValueTypeEnum`: nothing without (non-empty) components.
   * Otherwise a missing or non-map "schemas" becomes an empty map; the enum
   * values are those of an existing `FeatureValueType` schema or else the
   * first inline enum found; without values nothing more happens, and with
   * them the named schema is added when absent and every inline enum is
   * rewritten into a reference to it.
   */
  method PromoteValueTypeEnum(doc: Doc) returns (r: Doc, ghost values: seq<string>)
    ensures forall i | 0 <= i < |values| :: values[i] != ""
    ensures !HasComponents(doc) ==> r == doc && values == []
    ensures HasComponents(doc) && ExistingValues(Schemas(doc)) != [] ==> values == ExistingValues(Schemas(doc))
    ensures HasComponents(doc) && ExistingValues(Schemas(doc)) == [] ==>
      var doc1 := WithSchemas(doc, Schemas(doc));
      && (values == [] <==> Candidates(Obj(doc1)) == {})
      && (values != [] ==> values in Candidates(Obj(doc1)))
    ensures HasComponents(doc) && values == [] ==> r == WithSchemas(doc, Schemas(doc))
    ensures HasComponents(doc) && values != [] ==>
      r == RewriteFields(WithSchemas(doc, WithValueType(Schemas(doc), values)), false, ValueTypeRef)
  {
    if !HasComponents(doc) {
      return doc, [];
    }
    var schemas := Schemas(doc);
    var doc1 := WithSchemas(doc, schemas);
    var enumVals := [];
    if FeatureValueType in schemas && schemas[FeatureValueType].Obj? {
      enumVals := EnumStrings(schemas[FeatureValueType].fields);
    }
    if enumVals == [] {
      enumVals := FindInline(Obj(doc1));
    }
    values := enumVals;
    if enumVals == [] {
      return doc1, values;
    }
    var doc2 := WithSchemas(doc, WithValueType(schemas, enumVals));
    r := RewriteMap(doc2, false, ValueTypeRef);
  }

  /** A schemas map that already was a map is left as it is when nothing is promoted. */
  lemma SchemasAlreadyMap(doc: Doc)
    requires HasComponents(doc)
    requires "schemas" in doc["components"].fields && doc["components"].fields["schemas"].Obj?
    ensures WithSchemas(doc, Schemas(doc)) == doc
  {
    var cs := doc["components"].fields;
    assert cs["schemas" := Obj(Schemas(doc))] == cs;
  }

  /** The named schema's enum lists exactly the promoted values, in order. */
  lemma {:induction false} EnumSchemaValues(values: seq<string>)
    requires forall i | 0 <= i < |values| :: values[i] != ""
    ensures EnumValues(EnumSchema(values).fields) == values
  {
    if values != [] {
      var init := values[..|values| - 1];
      EnumSchemaValues(init);
      assert StrList(values)[..|values| - 1] == StrList(init);
    }
  }

  /** The named schema holds no inline enum, so the rewrite leaves it as it is. */
  lemma EnumSchemaFixed(values: seq<string>, ref: string)
    ensures Candidates(EnumSchema(values)) == {}
    ensures Rewrite(EnumSchema(values), ref) == EnumSchema(values)
  {
    var m := EnumSchema(values).fields;
    assert InlineEnum(m) == [];
    var xs := StrList(values);
    assert Candidates(Arr(xs)) == {} by {
      forall i | 0 <= i < |xs|
        ensures Candidates(xs[i]) == {}
      {
      }
    }
    forall k | k in m
      ensures Candidates(m[k]) == {}
    {
    }
    RewriteNoCandidates(EnumSchema(values), ref);
  }

  /** An entry other than "properties" of a map outside `properties` is rewritten on its own. */
  lemma RewriteFieldsAt(m: Doc, k: string, ref: string)
    requires k in m && k != "properties"
    ensures k in RewriteFields(m, false, ref) && RewriteFields(m, false, ref)[k] == Rewrite(m[k], ref)
  {
  }

  /** The rewritten schemas of a promoted document. */
  lemma PromotedSchemas(doc: Doc, values: seq<string>)
    requires HasComponents(doc)
    ensures var r := RewriteFields(WithSchemas(doc, WithValueType(Schemas(doc), values)), false, ValueTypeRef);
      HasComponents(r) && Schemas(r) == RewriteFields(WithValueType(Schemas(doc), values), false, ValueTypeRef)
  {
    var s2 := WithValueType(Schemas(doc), values);
    var cs2 := doc["components"].fields["schemas" := Obj(s2)];
    var doc2 := WithSchemas(doc, s2);
    assert doc2 == doc["components" := Obj(cs2)];
    RewriteFieldsAt(doc2, "components", ValueTypeRef);
    RewriteFieldsAt(cs2, "schemas", ValueTypeRef);
    var rcs := RewriteFields(cs2, false, ValueTypeRef);
    assert RewriteFields(doc2, false, ValueTypeRef)["components"] == Obj(rcs);
    assert rcs["schemas"] == Obj(RewriteFields(s2, false, ValueTypeRef));
    assert |rcs| > 0 by {
      assert "schemas" in rcs;
    }
  }

  /**
   * After a promotion the schemas hold `FeatureValueType`: an existing one is
   * never overwritten (only its own inline enums are rewritten), and a new
   * one is the string enum of the promoted values. No inline enum is left
   * anywhere, and the document keeps its top-level keys.
   */
  lemma PromotedDoc(doc: Doc, values: seq<string>)
    requires HasComponents(doc) && values != []
    requires forall i | 0 <= i < |values| :: values[i] != ""
    ensures var r := RewriteFields(WithSchemas(doc, WithValueType(Schemas(doc), values)), false, ValueTypeRef);
      && HasComponents(r) && r.Keys == doc.Keys
      && FeatureValueType in Schemas(r)
      && (FeatureValueType in Schemas(doc) ==>
            Schemas(r)[FeatureValueType] == Rewrite(Schemas(doc)[FeatureValueType], ValueTypeRef))
      && (FeatureValueType !in Schemas(doc) ==>
            Schemas(r)[FeatureValueType] == EnumSchema(values) &&
            EnumValues(Schemas(r)[FeatureValueType].fields) == values)
      && Candidates(Obj(r)) == {}
  {
    var doc2 := WithSchemas(doc, WithValueType(Schemas(doc), values));
    PromotedSchemas(doc, values);
    RewriteFieldsClears(doc2, false, ValueTypeRef);
    if FeatureValueType !in Schemas(doc) {
      EnumSchemaValues(values);
      EnumSchemaFixed(values, ValueTypeRef);
    }
  }

  /** The rewrite keeps every map's keys. */
  lemma RewriteFieldsKeys(m: Doc, isProps: bool, ref: string)
    ensures RewriteFields(m, isProps, ref).Keys == m.Keys
  {
  }

  /** The promotion keeps the document's top-level keys. */
  lemma PromoteKeepsKeys(doc: Doc, values: seq<string>)
    requires HasComponents(doc)
    ensures WithSchemas(doc, Schemas(doc)).Keys == doc.Keys
    ensures RewriteFields(WithSchemas(doc, WithValueType(Schemas(doc), values)), false, ValueTypeRef).Keys == doc.Keys
  {
    RewriteFieldsKeys(WithSchemas(doc, WithValueType(Schemas(doc), values)), false, ValueTypeRef);
  }

  // ---------------------------------------------------------------------
  // copyKeyIfPresent and the document skeleton of main

  /** `copyKeyIfPresent`: `dst` with `src`'s entry for `key`, when `src` has one. */
  function CopyKeyIfPresent(dst: Doc, src: Doc, key: string): (r: Doc)
    ensures key in src ==> key in r && r[key] == src[key]
    ensures key !in src ==> r == dst
    ensures r.Keys == dst.Keys + (if key in src then {key} else {})
    ensures forall k | k in dst && k != key :: r[k] == dst[k]
  {
    if key in src then dst[key := src[key]] else dst
  }

  /** The "name" of a tag object; "" when it is missing or not a string. */
  function TagName(t: Doc): string {
    if "name" in t && t["name"].Str? then t["name"].s else ""
  }

  /** The tag objects named `tag`, in order. */
  function KeptTags(ts: seq<Value>, tag: string): seq<Value> {
    if ts == [] then []
    else
      var last := ts[|ts| - 1];
      KeptTags(ts[..|ts| - 1], tag) + (if last.Obj? && TagName(last.fields) == tag then [last] else [])
  }

  /** A tag entry is kept exactly when it is a map whose name is the tag. */
  lemma {:induction false} KeptTagsSpec(ts: seq<Value>, tag: string)
    ensures forall t :: t in KeptTags(ts, tag) <==> t in ts && t.Obj? && TagName(t.fields) == tag
  {
    if ts != [] {
      var init := ts[..|ts| - 1];
      KeptTagsSpec(init, tag);
      assert ts == init + [ts[|ts| - 1]];
    }
  }

  /** The loop of `main` that keeps the tag metadata of the selected tag. */
  method FilterTags(ts: seq<Value>, tag: string) returns (kept: seq<Value>)
    ensures kept == KeptTags(ts, tag)
  {
    kept := [];
    var i := 0;
    while i < |ts|
      invariant 0 <= i <= |ts|
      invariant kept == KeptTags(ts[..i], tag)
    {
      assert ts[..i + 1][..i] == ts[..i];
      var t := ts[i];
      if t.Obj? && TagName(t.fields) == tag {
        kept := kept + [t];
      }
      i := i + 1;
    }
    assert ts[..i] == ts;
  }

  /** The top-level keys `main` copies as they are. */
  const HeaderKeys: set<string> := {"openapi", "info", "servers", "security"}

  /** The entries of `doc` under the copied keys. */
  function Header(doc: Doc): Doc {
    map k | k in HeaderKeys && k in doc :: doc[k]
  }

  /** The four `copyKeyIfPresent` calls of `main` build exactly the header. */
  lemma CopiesMakeHeader(doc: Doc)
    ensures CopyKeyIfPresent(CopyKeyIfPresent(CopyKeyIfPresent(CopyKeyIfPresent(map[], doc, "openapi"), doc, "info"), doc, "servers"), doc, "security")
      == Header(doc)
  {
  }

  /** The keys `main` adds are not header keys. */
  lemma SkeletonKeysDistinct()
    ensures "paths" !in HeaderKeys && "tags" !in HeaderKeys && "components" !in HeaderKeys
    ensures "paths" != "tags" && "paths" != "components" && "tags" != "components"
  {
  }

  const PathsError := "openapi.paths missing or invalid"

  /**
   * The transformation `main` applies between reading and writing YAML:
   * fails when "paths" is missing or not a map; otherwise builds the
   * minimised document from "openapi", "info", "servers", "security", the
   * filtered paths, the selected tag's metadata and the minimal components,
   * then promotes the `valueType` enum.
   */
  method Minimize(doc: Doc, tag: string) returns (r: Result<Doc>)
    ensures r.Failure? <==> !("paths" in doc && doc["paths"].Obj?)
    ensures r.Failure? ==> r.error == PathsError
    ensures r.Success? ==> "paths" in r.value && r.value.Keys <= HeaderKeys + {"paths", "tags", "components"}
    ensures r.Success? ==> forall k | k in HeaderKeys :: k in r.value <==> k in doc
  {
    if !("paths" in doc && doc["paths"].Obj?) {
      return Failure(PathsError);
    }
    var filteredPaths := FilterPathsByTag(doc["paths"].fields, tag);
    var minDoc := Skeleton(doc, filteredPaths, tag);
    var components: Doc := if "components" in doc && doc["components"].Obj? then doc["components"].fields else map[];
    var minComponents;
    ghost var reached;
    minComponents, reached := BuildMinComponents(filteredPaths, components, doc);
    SkeletonKeysDistinct();
    if |minComponents| > 0 {
      minDoc := minDoc["components" := Obj(minComponents)];
    }
    var promoted;
    ghost var values;
    promoted, values := PromoteValueTypeEnum(minDoc);
    if HasComponents(minDoc) {
      PromoteKeepsKeys(minDoc, values);
    }
    return Success(promoted);
  }

  /** The document skeleton of `main`: the header, the filtered paths and the kept tag metadata. */
  method Skeleton(doc: Doc, filteredPaths: Doc, tag: string) returns (minDoc: Doc)
    ensures minDoc.Keys <= HeaderKeys + {"paths", "tags"}
    ensures forall k | k in HeaderKeys :: (k in minDoc <==> k in doc) && (k in doc ==> minDoc[k] == doc[k])
    ensures "paths" in minDoc && minDoc["paths"] == Obj(filteredPaths)
    ensures "tags" in minDoc <==> "tags" in doc && doc["tags"].Arr? && KeptTags(doc["tags"].items, tag) != []
    ensures "tags" in minDoc ==> minDoc["tags"] == Arr(KeptTags(doc["tags"].items, tag))
  {
    minDoc := map[];
    minDoc := CopyKeyIfPresent(minDoc, doc, "openapi");
    minDoc := CopyKeyIfPresent(minDoc, doc, "info");
    minDoc := CopyKeyIfPresent(minDoc, doc, "servers");
    minDoc := CopyKeyIfPresent(minDoc, doc, "security");
    CopiesMakeHeader(doc);
    SkeletonKeysDistinct();
    minDoc := minDoc["paths" := Obj(filteredPaths)];
    if "tags" in doc && doc["tags"].Arr? {
      var kept := FilterTags(doc["tags"].items, tag);
      if |kept| > 0 {
        minDoc := minDoc["tags" := Arr(kept)];
      }
    }
  }
}
