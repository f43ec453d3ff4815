/**
 * Identifier synthesis (internal/generator/keys.go, `splitNonAlnum` and
 * `toExportedIdentifier`): a feature id is split into runs of letters and
 * digits, and each run is written with its first character upper-cased.
 */
module Identifiers {
  import opened Text

  /** A token made solely of letters and digits. */
  predicate AllAlnum(t: string) {
    forall i :: 0 <= i < |t| ==> IsAlnum(t[i])
  }

  /** `s` with every character that is not a letter or a digit removed. */
  function AlnumOnly(s: string): (r: string)
    ensures AllAlnum(r)
    ensures |r| <= |s|
  {
    if s == [] then [] else (if IsAlnum(s[0]) then [s[0]] else []) + AlnumOnly(s[1..])
  }

  /** What the `flush` closure appends: the token under construction, if any. */
  function Flush(cur: string): seq<string> {
    if cur == [] then [] else [cur]
  }

  /** The tokens still to come when the scan has `s` left and has built `cur` so far. */
  function SplitFrom(s: string, cur: string): seq<string> {
    if s == [] then Flush(cur)
    else if IsAlnum(s[0]) then SplitFrom(s[1..], cur + [s[0]])
    else Flush(cur) + SplitFrom(s[1..], [])
  }

  /** The tokens of a feature id, as `splitNonAlnum` returns them. */
  function Tokens(s: string): seq<string> {
    SplitFrom(s, [])
  }

  /** Every token is non-empty and alphanumeric, and together they are the id's letters and digits. */
  predicate TokensOf(s: string, parts: seq<string>) {
    && (forall t | t in parts :: t != [] && AllAlnum(t))
    && Concat(parts) == AlnumOnly(s)
  }

  lemma {:induction false} SplitFromTokens(s: string, cur: string)
    requires AllAlnum(cur)
    ensures forall t | t in SplitFrom(s, cur) :: t != [] && AllAlnum(t)
  {
    if s == [] {
    } else if IsAlnum(s[0]) {
      SplitFromTokens(s[1..], cur + [s[0]]);
    } else {
      SplitFromTokens(s[1..], []);
    }
  }

  lemma {:induction false} SplitFromConcat(s: string, cur: string)
    ensures Concat(SplitFrom(s, cur)) == cur + AlnumOnly(s)
  {
    if s == [] {
      if cur != [] {
        assert Concat([cur]) == cur + Concat([]);
      }
    } else if IsAlnum(s[0]) {
      SplitFromConcat(s[1..], cur + [s[0]]);
      assert AlnumOnly(s) == [s[0]] + AlnumOnly(s[1..]);
      assert (cur + [s[0]]) + AlnumOnly(s[1..]) == cur + ([s[0]] + AlnumOnly(s[1..]));
    } else {
      SplitFromConcat(s[1..], []);
      ConcatAppend(Flush(cur), SplitFrom(s[1..], []));
      if cur != [] {
        assert Concat([cur]) == cur + Concat([]);
      }
      assert AlnumOnly(s) == AlnumOnly(s[1..]);
    }
  }

  /** splitNonAlnum returns only non-empty tokens of letters and digits, which concatenate to the id's letters and digits. */
  lemma TokensWellFormed(s: string)
    ensures TokensOf(s, Tokens(s))
  {
    SplitFromTokens(s, []);
    SplitFromConcat(s, []);
  }

  /** The loop of `splitNonAlnum`: runes accumulate in `cur`, a non-alphanumeric rune flushes it. */
  method SplitNonAlnum(s: string) returns (parts: seq<string>)
    ensures parts == Tokens(s)
    ensures TokensOf(s, parts)
  {
    parts := [];
    var cur := "";
    for i := 0 to |s|
      invariant parts + SplitFrom(s[i..], cur) == Tokens(s)
    {
      assert s[i..][1..] == s[i + 1..];
      if IsAlnum(s[i]) {
        cur := cur + [s[i]];
      } else {
        if |cur| > 0 {
          parts := parts + [cur];
          cur := "";
        }
      }
    }
    if |cur| > 0 {
      parts := parts + [cur];
    }
    TokensWellFormed(s);
  }

  /** A token with its first character upper-cased and the rest unchanged. */
  function Capitalize(t: string): (r: string)
    ensures |r| == |t|
  {
    if t == [] then [] else [ToUpper(t[0])] + t[1..]
  }

  /** The capitalised tokens written one after the other, with no separator. */
  function CapitalizedJoin(ts: seq<string>): (r: string) {
    if ts == [] then [] else Capitalize(ts[0]) + CapitalizedJoin(ts[1..])
  }

  /** `toExportedIdentifier`: PascalCase of the tokens, or "Unknown" when there are none. */
  function ExportedIdentifier(id: string): string {
    var joined := CapitalizedJoin(Tokens(id));
    if joined == [] then "Unknown" else joined
  }

  /** Two strings that agree up to upper-casing, character by character. */
  predicate SameUpToCase(a: string, b: string) {
    |a| == |b| && forall k :: 0 <= k < |a| ==> ToUpper(a[k]) == ToUpper(b[k])
  }

  lemma {:induction false} CapitalizedJoinMatches(ts: seq<string>)
    requires forall t | t in ts :: AllAlnum(t)
    ensures SameUpToCase(CapitalizedJoin(ts), Concat(ts))
    ensures AllAlnum(CapitalizedJoin(ts))
  {
    if ts != [] {
      CapitalizedJoinMatches(ts[1..]);
      var c, j, t := Capitalize(ts[0]), CapitalizedJoin(ts[1..]), ts[0];
      assert t in ts;
      assert CapitalizedJoin(ts) == c + j;
      assert Concat(ts) == t + Concat(ts[1..]);
      forall k | 0 <= k < |c + j|
        ensures ToUpper((c + j)[k]) == ToUpper((t + Concat(ts[1..]))[k])
        ensures IsAlnum((c + j)[k])
      {
        if k >= |c| {
          assert (c + j)[k] == j[k - |c|];
        } else if k > 0 {
          assert c[k] == t[k];
        }
      }
    }
  }

  /**
   * The exported identifier is never empty and holds only letters and digits;
   * it is "Unknown" when the id has no letter or digit, and otherwise it is the
   * id's letters and digits with some upper-cased (the first of each token).
   */
  lemma ExportedIdentifierShape(id: string)
    ensures ExportedIdentifier(id) != []
    ensures AllAlnum(ExportedIdentifier(id))
    ensures AlnumOnly(id) == [] ==> ExportedIdentifier(id) == "Unknown"
    ensures AlnumOnly(id) != [] ==>
      ExportedIdentifier(id) == CapitalizedJoin(Tokens(id)) &&
      SameUpToCase(ExportedIdentifier(id), AlnumOnly(id))
  {
    TokensWellFormed(id);
    CapitalizedJoinMatches(Tokens(id));
  }

  /** Unfolding the capitalised join of a suffix by one token. */
  lemma CapitalizedJoinAt(parts: seq<string>, i: nat)
    requires i < |parts|
    ensures CapitalizedJoin(parts[i..]) == Capitalize(parts[i]) + CapitalizedJoin(parts[i + 1..])
  {
    assert parts[i..][1..] == parts[i + 1..];
  }

  /** The loop of `toExportedIdentifier` over the tokens, writing runes into a builder. */
  method WriteCapitalized(parts: seq<string>) returns (out: string)
    ensures out == CapitalizedJoin(parts)
  {
    out := "";
    var i := 0;
    while i < |parts|
      invariant 0 <= i <= |parts|
      invariant out + CapitalizedJoin(parts[i..]) == CapitalizedJoin(parts)
    {
      var p := parts[i];
      ghost var rest := CapitalizedJoin(parts[i + 1..]);
      CapitalizedJoinAt(parts, i);
      if p != "" {
        var c := [ToUpper(p[0])] + p[1..];
        assert c == Capitalize(p);
        AppendAssoc(out, c, rest);
        out := out + c;
      } else {
        assert Capitalize(p) + rest == rest;
      }
      i := i + 1;
    }
    assert parts[|parts|..] == [];
  }

  /** `toExportedIdentifier`: the capitalised tokens, or "Unknown" when the builder stays empty. */
  method ToExportedIdentifier(id: string) returns (r: string)
    ensures r == ExportedIdentifier(id)
    ensures r != [] && AllAlnum(r)
    ensures AlnumOnly(id) == [] ==> r == "Unknown"
    ensures AlnumOnly(id) != [] ==> SameUpToCase(r, AlnumOnly(id))
  {
    var parts := SplitNonAlnum(id);
    var out := WriteCapitalized(parts);
    if |out| == 0 {
      r := "Unknown";
    } else {
      r := out;
    }
    ExportedIdentifierShape(id);
  }

  /** Two alphanumeric characters around a separator make two one-character tokens. */
  lemma TwoTokens(x: char, sep: char, y: char)
    requires IsAlnum(x) && !IsAlnum(sep) && IsAlnum(y)
    ensures Tokens([x, sep, y]) == [[x], [y]]
  {
    assert [x, sep, y][1..] == [sep, y] && [sep, y][1..] == [y] && [y][1..] == [];
    assert [] + [x] == [x] && [] + [y] == [y];
    assert SplitFrom([], [y]) == Flush([y]) == [[y]];
    assert SplitFrom([y], []) == SplitFrom([], [y]);
    assert SplitFrom([sep, y], [x]) == Flush([x]) + SplitFrom([y], []);
    assert SplitFrom([x, sep, y], []) == SplitFrom([sep, y], [x]);
  }
}
