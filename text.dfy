/**
 * String primitives of Go's `strings`, `strconv`, `unicode` and `fmt` packages
 * that the generator and the configuration code rely on, restricted to what
 * those callers use. Letters, digits and case mapping are ASCII; white space
 * is Go's `unicode.IsSpace` set.
 */
module Text {
  import Wrappers

  predicate IsLetter(c: char) {
    'a' <= c <= 'z' || 'A' <= c <= 'Z'
  }

  predicate IsDigit(c: char) {
    '0' <= c <= '9'
  }

  predicate IsAlnum(c: char) {
    IsLetter(c) || IsDigit(c)
  }

  /** `unicode.ToUpper` on ASCII; every other character is returned as is. */
  function ToUpper(c: char): (u: char)
    ensures IsAlnum(c) <==> IsAlnum(u)
    ensures IsLetter(c) ==> 'A' <= u <= 'Z'
  {
    if 'a' <= c <= 'z' then (c as int - 32) as char else c
  }

  function ToLowerChar(c: char): char {
    if 'A' <= c <= 'Z' then (c as int + 32) as char else c
  }

  /** `strings.ToLower` on ASCII. */
  function ToLower(s: string): (r: string)
    ensures |r| == |s|
    ensures forall i :: 0 <= i < |s| ==> r[i] == ToLowerChar(s[i])
  {
    if s == [] then [] else [ToLowerChar(s[0])] + ToLower(s[1..])
  }

  /** Go's `unicode.IsSpace`: the Latin-1 spaces and the other White_Space characters. */
  predicate IsSpace(c: char) {
    var n := c as int;
    (9 <= n <= 13) || n == 32 || n == 0x85 || n == 0xA0 || n == 0x1680
    || (0x2000 <= n <= 0x200A) || n == 0x2028 || n == 0x2029 || n == 0x202F
    || n == 0x205F || n == 0x3000
  }

  function TrimLeftSpace(s: string): string {
    if s != [] && IsSpace(s[0]) then TrimLeftSpace(s[1..]) else s
  }

  function TrimRightSpace(s: string): string {
    if s != [] && IsSpace(s[|s| - 1]) then TrimRightSpace(s[..|s| - 1]) else s
  }

  /** `strings.TrimSpace`. */
  function TrimSpace(s: string): string {
    TrimRightSpace(TrimLeftSpace(s))
  }

  lemma {:induction false} TrimLeftSpaceShape(s: string)
    ensures |TrimLeftSpace(s)| <= |s| && TrimLeftSpace(s) == s[|s| - |TrimLeftSpace(s)|..]
    ensures TrimLeftSpace(s) != [] ==> !IsSpace(TrimLeftSpace(s)[0])
  {
    if s != [] && IsSpace(s[0]) {
      TrimLeftSpaceShape(s[1..]);
    }
  }

  lemma {:induction false} TrimRightSpaceShape(s: string)
    ensures |TrimRightSpace(s)| <= |s| && TrimRightSpace(s) == s[..|TrimRightSpace(s)|]
    ensures TrimRightSpace(s) != [] ==> !IsSpace(TrimRightSpace(s)[|TrimRightSpace(s)| - 1])
  {
    if s != [] && IsSpace(s[|s| - 1]) {
      TrimRightSpaceShape(s[..|s| - 1]);
    }
  }

  /**
   * `strings.TrimSpace` returns a slice of its input that neither starts nor
   * ends with white space.
   */
  lemma TrimSpaceShape(s: string)
    ensures forall c | c in TrimSpace(s) :: c in s
    ensures TrimSpace(s) != [] ==> !IsSpace(TrimSpace(s)[0]) && !IsSpace(TrimSpace(s)[|TrimSpace(s)| - 1])
  {
    var l := TrimLeftSpace(s);
    var r := TrimRightSpace(l);
    TrimLeftSpaceShape(s);
    TrimRightSpaceShape(l);
    forall c | c in r
      ensures c in s
    {
      var k :| 0 <= k < |r| && r[k] == c;
      assert l[k] == c;
      assert s[|s| - |l| + k] == c;
    }
    if r != [] {
      assert r[0] == l[0];
    }
  }

  /** Trimming only removes characters: a character absent from `s` is absent from the result. */
  lemma TrimSpaceKeepsOut(s: string, c: char)
    requires c !in s
    ensures c !in TrimSpace(s)
  {
    TrimSpaceShape(s);
  }

  /** Trimming twice is trimming once. */
  lemma TrimSpaceIdempotent(s: string)
    ensures TrimSpace(TrimSpace(s)) == TrimSpace(s)
  {
    var t := TrimSpace(s);
    TrimSpaceShape(s);
    if t != [] {
      assert TrimLeftSpace(t) == t;
      assert TrimRightSpace(t) == t;
    }
  }

  /** True when the string is empty or white space only (`strings.TrimSpace(s) == ""`). */
  predicate IsBlank(s: string) {
    TrimSpace(s) == []
  }

  /** `strings.Split(s, string(sep))`: the pieces between separators, at least one. */
  function Split(s: string, sep: char): (parts: seq<string>)
    ensures |parts| >= 1
    ensures forall i :: 0 <= i < |parts| ==> sep !in parts[i]
  {
    if s == [] then [""]
    else if s[0] == sep then [""] + Split(s[1..], sep)
    else
      var rest := Split(s[1..], sep);
      [[s[0]] + rest[0]] + rest[1..]
  }

  predicate HasPrefix(s: string, p: string) {
    |p| <= |s| && s[..|p|] == p
  }

  predicate HasSuffix(s: string, p: string) {
    |p| <= |s| && s[|s| - |p|..] == p
  }

  /** `strings.TrimPrefix`. */
  function TrimPrefix(s: string, p: string): string {
    if HasPrefix(s, p) then s[|p|..] else s
  }

  /** `strings.TrimRight(s, string(c))`: drops every trailing `c`. */
  function TrimRightChar(s: string, c: char): (r: string)
    ensures |r| <= |s| && r == s[..|r|]
    ensures r != [] ==> r[|r| - 1] != c
    ensures forall i :: |r| <= i < |s| ==> s[i] == c
  {
    if s != [] && s[|s| - 1] == c then TrimRightChar(s[..|s| - 1], c) else s
  }

  /** `strings.TrimRight(s, "\n")`. */
  function TrimRightNewlines(s: string): string {
    TrimRightChar(s, '\n')
  }

  /** `strings.ReplaceAll` with a non-empty pattern: left to right, non-overlapping. */
  function ReplaceAll(s: string, pat: string, rep: string): string
    requires pat != []
    decreases |s|
  {
    if |s| < |pat| then s
    else if s[..|pat|] == pat then rep + ReplaceAll(s[|pat|..], pat, rep)
    else [s[0]] + ReplaceAll(s[1..], pat, rep)
  }

  /** Replacing a pattern by itself changes nothing. */
  lemma {:induction false} ReplaceAllSelf(s: string, pat: string)
    requires pat != []
    ensures ReplaceAll(s, pat, pat) == s
    decreases |s|
  {
    if |s| >= |pat| {
      if s[..|pat|] == pat {
        ReplaceAllSelf(s[|pat|..], pat);
        assert pat + s[|pat|..] == s;
      } else {
        ReplaceAllSelf(s[1..], pat);
        assert [s[0]] + s[1..] == s;
      }
    }
  }

  /** A pattern holding a character the string lacks does not occur in it. */
  lemma {:induction false} ReplaceAllMissing(s: string, pat: string, rep: string, c: char)
    requires pat != [] && c in pat && c !in s
    ensures ReplaceAll(s, pat, rep) == s
    decreases |s|
  {
    if |s| >= |pat| {
      assert forall x | x in s[1..] :: x in s;
      ReplaceAllMissing(s[1..], pat, rep, c);
      assert [s[0]] + s[1..] == s;
    }
  }

  /** The first occurrence of a pattern, when nothing before it starts like the pattern. */
  lemma {:induction false} ReplaceAllAt(a: string, pat: string, rep: string, b: string)
    requires pat != [] && pat[0] !in a
    ensures ReplaceAll(a + pat + b, pat, rep) == a + rep + ReplaceAll(b, pat, rep)
    decreases |a|
  {
    var s := a + pat + b;
    if a == [] {
      assert s[..|pat|] == pat;
      assert s[|pat|..] == b;
    } else {
      assert s[0] == a[0] && a[0] in a;
      assert s[..|pat|][0] == s[0];
      assert forall x | x in a[1..] :: x in a;
      ReplaceAllAt(a[1..], pat, rep, b);
      assert s[1..] == a[1..] + pat + b;
      AppendAssoc([a[0]], a[1..] + rep, ReplaceAll(b, pat, rep));
      AppendAssoc([a[0]], a[1..], rep);
      assert [a[0]] + a[1..] == a;
    }
  }

  /**
   * Regrouping a concatenation. Callers use it instead of leaving the
   * regrouping to the verifier, which would compare the sequences element by
   * element.
   */
  lemma AppendAssoc<T>(a: seq<T>, b: seq<T>, c: seq<T>)
    ensures (a + b) + c == a + (b + c)
  {
  }

  lemma AppendParts<T>(a: seq<T>, b: seq<T>)
    ensures (a + b)[..|a|] == a && (a + b)[|a|..] == b
  {
  }

  /** A block `[open] + tail` appended to a `front` without `open` keeps the front's head and ends with `tail`. */
  lemma AppendBlock<T>(front: seq<T>, open: T, tail: seq<T>, n: nat)
    requires n <= |front| && open !in front
    ensures (front + ([open] + tail))[..n] == front[..n]
    ensures open in front + ([open] + tail)
    ensures var all := front + ([open] + tail); all[|all| - |tail|..] == tail
  {
    var all := front + ([open] + tail);
    assert all[|front|] == open;
    assert all[|all| - |tail|..] == tail;
  }

  lemma InAppend<T>(x: T, a: seq<T>, b: seq<T>)
    ensures x in a + b <==> x in a || x in b
  {
    if x in a + b {
      var k :| 0 <= k < |a + b| && (a + b)[k] == x;
      if k >= |a| {
        assert b[k - |a|] == x;
      }
    }
    if x in b {
      var k :| 0 <= k < |b| && b[k] == x;
      assert (a + b)[|a| + k] == x;
    }
  }

  /** Concatenation of a sequence of strings. */
  function Concat(ss: seq<string>): string {
    if ss == [] then [] else ss[0] + Concat(ss[1..])
  }

  lemma {:induction false} ConcatAppend(a: seq<string>, b: seq<string>)
    ensures Concat(a + b) == Concat(a) + Concat(b)
  {
    if a == [] {
      assert a + b == b;
    } else {
      assert (a + b)[1..] == a[1..] + b;
      ConcatAppend(a[1..], b);
    }
  }

  /** The text of a buffer written as newline-terminated lines. */
  function Unlines(lines: seq<string>): string {
    if lines == [] then [] else lines[0] + "\n" + Unlines(lines[1..])
  }

  /** `strings.Join(ss, sep)`. */
  function Join(ss: seq<string>, sep: string): string {
    if ss == [] then []
    else if |ss| == 1 then ss[0]
    else ss[0] + sep + Join(ss[1..], sep)
  }

  lemma {:induction false} JoinSnoc(ss: seq<string>, x: string, sep: string)
    requires ss != []
    ensures Join(ss + [x], sep) == Join(ss, sep) + sep + x
  {
    if |ss| == 1 {
      assert ss + [x] == [ss[0], x];
    } else {
      assert (ss + [x])[1..] == ss[1..] + [x];
      JoinSnoc(ss[1..], x, sep);
      AppendAssoc(ss[0] + sep, Join(ss[1..], sep) + sep, x);
      AppendAssoc(ss[0] + sep, Join(ss[1..], sep), sep);
    }
  }

  lemma JoinCons(x: string, xs: seq<string>, sep: string)
    requires xs != []
    ensures Join([x] + xs, sep) == x + sep + Join(xs, sep)
  {
    assert ([x] + xs)[1..] == xs;
  }

  /** A joined list ends with its last piece. */
  lemma JoinEnds(xs: seq<string>, sep: string)
    requires xs != []
    ensures HasSuffix(Join(xs, sep), xs[|xs| - 1])
  {
    var last := xs[|xs| - 1];
    if |xs| > 1 {
      JoinSnoc(xs[..|xs| - 1], last, sep);
      assert xs[..|xs| - 1] + [last] == xs;
      var front := Join(xs[..|xs| - 1], sep) + sep;
      AppendParts(front, last);
    }
  }

  /** A separator after a separator-free piece starts the next piece. */
  lemma {:induction false} SplitAfter(a: string, sep: char, b: string)
    requires sep !in a
    ensures Split(a + [sep] + b, sep) == [a] + Split(b, sep)
  {
    if a == [] {
      assert a + [sep] + b == [sep] + b;
      assert ([sep] + b)[1..] == b;
    } else {
      assert a[0] in a;
      assert forall x | x in a[1..] :: x in a;
      SplitAfter(a[1..], sep, b);
      assert (a + [sep] + b)[1..] == a[1..] + [sep] + b;
      assert [a[0]] + a[1..] == a;
    }
  }

  lemma {:induction false} SplitNoSep(a: string, sep: char)
    requires sep !in a
    ensures Split(a, sep) == [a]
  {
    if a != [] {
      assert a[0] in a;
      assert forall x | x in a[1..] :: x in a;
      SplitNoSep(a[1..], sep);
      assert [a[0]] + a[1..] == a;
    }
  }

  /** Splitting a joined list at its separator gives the list back, when no piece holds the separator. */
  lemma {:induction false} SplitJoin(xs: seq<string>, sep: char)
    requires xs != []
    requires forall k :: 0 <= k < |xs| ==> sep !in xs[k]
    ensures Split(Join(xs, [sep]), sep) == xs
  {
    if |xs| == 1 {
      SplitNoSep(xs[0], sep);
    } else {
      SplitJoin(xs[1..], sep);
      SplitAfter(xs[0], sep, Join(xs[1..], [sep]));
      assert [xs[0]] + xs[1..] == xs;
    }
  }

  /** Joining the pieces of a split with the separator gives the string back. */
  lemma {:induction false} JoinSplit(s: string, sep: char)
    ensures Join(Split(s, sep), [sep]) == s
  {
    if s != [] {
      var rest := Split(s[1..], sep);
      JoinSplit(s[1..], sep);
      if s[0] == sep {
        JoinCons("", rest, [sep]);
        assert [s[0]] + s[1..] == s;
      } else if |rest| == 1 {
        assert [s[0]] + s[1..] == s;
      } else {
        var parts := [[s[0]] + rest[0]] + rest[1..];
        JoinCons([s[0]] + rest[0], rest[1..], [sep]);
        assert [rest[0]] + rest[1..] == rest;
        JoinCons(rest[0], rest[1..], [sep]);
        AppendAssoc([s[0]], rest[0], [sep]);
        AppendAssoc([s[0]], rest[0] + [sep], Join(rest[1..], [sep]));
        assert [s[0]] + s[1..] == s;
      }
    }
  }

  function DigitChar(d: nat): (c: char)
    requires d < 10
    ensures IsDigit(c)
  {
    ('0' as int + d) as char
  }

  /** Decimal text of a non-negative integer (`%d`). */
  function Itoa(n: nat): (r: string)
    ensures r != []
    ensures forall i :: 0 <= i < |r| ==> IsDigit(r[i])
    decreases n
  {
    if n < 10 then [DigitChar(n)] else Itoa(n / 10) + [DigitChar(n % 10)]
  }

  /** Different numbers print differently. */
  lemma {:induction false} ItoaInjective(a: nat, b: nat)
    requires Itoa(a) == Itoa(b)
    ensures a == b
    decreases a
  {
    if a < 10 && b < 10 {
      assert Itoa(a)[0] == DigitChar(a);
    } else if a >= 10 && b >= 10 {
      var sa, sb := Itoa(a), Itoa(b);
      assert sa[|sa| - 1] == DigitChar(a % 10);
      assert sb[|sb| - 1] == DigitChar(b % 10);
      assert Itoa(a / 10) == sa[..|sa| - 1];
      assert Itoa(b / 10) == sb[..|sb| - 1];
      ItoaInjective(a / 10, b / 10);
    }
  }

  /** Go's `<` on strings: lexicographic by code point (the same order as UTF-8 bytes). */
  predicate Less(a: string, b: string) {
    if a == [] then b != []
    else if b == [] then false
    else if a[0] != b[0] then a[0] < b[0]
    else Less(a[1..], b[1..])
  }

  predicate LessEq(a: string, b: string) {
    !Less(b, a)
  }

  lemma {:induction false} LessIrreflexive(a: string)
    ensures !Less(a, a)
  {
    if a != [] {
      LessIrreflexive(a[1..]);
    }
  }

  lemma {:induction false} LessTotal(a: string, b: string)
    ensures a == b || Less(a, b) || Less(b, a)
  {
    if a != [] && b != [] && a[0] == b[0] {
      LessTotal(a[1..], b[1..]);
      if a[1..] == b[1..] {
        assert a == [a[0]] + a[1..] && b == [b[0]] + b[1..];
      }
    }
  }

  lemma {:induction false} LessTransitive(a: string, b: string, c: string)
    requires Less(a, b) && Less(b, c)
    ensures Less(a, c)
  {
    if a != [] && b != [] && c != [] && a[0] == b[0] && b[0] == c[0] {
      LessTransitive(a[1..], b[1..], c[1..]);
    }
  }

  lemma LessEqTransitive(a: string, b: string, c: string)
    requires LessEq(a, b) && LessEq(b, c)
    ensures LessEq(a, c)
  {
    LessTotal(a, b);
    LessTotal(b, c);
    if Less(c, a) {
      if a == b {
        LessTotal(b, c);
      } else if b == c {
      } else {
        LessTransitive(b, c, a);
      }
    }
  }

  function HexDigit(d: nat): (r: char)
    requires d < 16
    ensures IsPrint(r) && r != '"' && r != '\\'
  {
    if d < 10 then ('0' as int + d) as char else ('a' as int + d - 10) as char
  }

  /** The low `width` hexadecimal digits of `n`, most significant first, lower-case. */
  function HexDigits(n: nat, width: nat): (r: string)
    ensures |r| == width
    ensures forall k :: 0 <= k < |r| ==> IsPrint(r[k]) && r[k] != '"' && r[k] != '\\'
  {
    if width == 0 then [] else HexDigits(n / 16, width - 1) + [HexDigit(n % 16)]
  }

  /**
   * Code points above U+00FF that Go's `strconv.IsPrint` rejects and that
   * this model knows of: the space separators other than U+0020, the line
   * and paragraph separators, the common format characters, surrogates,
   * the private-use areas and the noncharacters U+FFFE and U+FFFF.
   */
  predicate NotPrintAbove(n: int) {
    || n == 0x061C || n == 0x1680 || n == 0x180E
    || 0x2000 <= n <= 0x200F
    || 0x2028 <= n <= 0x202F
    || 0x205F <= n <= 0x206F
    || n == 0x3000
    || 0xD800 <= n <= 0xF8FF
    || n == 0xFEFF
    || 0xFFF9 <= n <= 0xFFFB
    || 0xFFFE <= n <= 0xFFFF
    || n == 0xE0001 || 0xE0020 <= n <= 0xE007F
    || 0xF0000 <= n
  }

  /**
   * `strconv.IsPrint`: letters, marks, numbers, punctuation and symbols, and
   * the ASCII space. Exact below U+0100 (the C0 and C1 controls, DEL, the
   * no-break space and the soft hyphen are not printable).
   */
  predicate IsPrint(c: char) {
    var n := c as int;
    if n < 0x80 then 0x20 <= n < 0x7F
    else if n < 0xA0 then false
    else if n == 0xA0 || n == 0xAD then false
    else if n < 0x100 then true
    else !NotPrintAbove(n)
  }

  /**
   * One character as written inside a Go `%q` literal: quote and backslash
   * escaped, printable characters as they are, control characters as
   * `\a \b \f \n \r \t \v` or `\xNN`, and any other character as `\uNNNN`,
   * or `\UNNNNNNNN` above U+FFFF.
   */
  function EscapeChar(c: char): (r: string)
    ensures forall k :: 0 <= k < |r| ==> IsPrint(r[k])
    ensures '\n' !in r
  {
    var n := c as int;
    if c == '"' then "\\\""
    else if c == '\\' then "\\\\"
    else if IsPrint(c) then [c]
    else if n == 7 then "\\a"
    else if n == 8 then "\\b"
    else if n == 12 then "\\f"
    else if c == '\n' then "\\n"
    else if c == '\r' then "\\r"
    else if c == '\t' then "\\t"
    else if n == 11 then "\\v"
    else if n < 0x20 || n == 0x7F then "\\x" + HexDigits(n, 2)
    else if n < 0x10000 then "\\u" + HexDigits(n, 4)
    else "\\U" + HexDigits(n, 8)
  }

  /** A printable character other than quote and backslash is written as it is. */
  lemma EscapeCharKeepsPrintable(c: char)
    requires IsPrint(c) && c != '"' && c != '\\'
    ensures EscapeChar(c) == [c]
  {
  }

  function Escape(s: string): (r: string)
    ensures forall k :: 0 <= k < |r| ==> IsPrint(r[k])
    ensures '\n' !in r
  {
    if s == [] then [] else EscapeChar(s[0]) + Escape(s[1..])
  }

  /** Go's `%q` verb applied to a string: a double-quoted literal of printable characters. */
  function Quote(s: string): (r: string)
    ensures forall k :: 0 <= k < |r| ==> IsPrint(r[k])
    ensures '\n' !in r
    ensures |r| >= 2 && r[0] == '"' && r[|r| - 1] == '"'
  {
    "\"" + Escape(s) + "\""
  }

  /** Text that is printable and holds no quote or backslash is quoted as it is. */
  lemma {:induction false} EscapeKeepsPlain(s: string)
    requires forall k :: 0 <= k < |s| ==> IsPrint(s[k]) && s[k] != '"' && s[k] != '\\'
    ensures Escape(s) == s
  {
    if s != [] {
      EscapeCharKeepsPrintable(s[0]);
      EscapeKeepsPlain(s[1..]);
      assert s == [s[0]] + s[1..];
    }
  }

  /** Escaping three characters escapes each of them in turn. */
  lemma EscapeThree(x: char, y: char, z: char)
    ensures Escape([x, y, z]) == EscapeChar(x) + EscapeChar(y) + EscapeChar(z)
  {
    assert [x, y, z][1..] == [y, z] && [y, z][1..] == [z] && [z][1..] == [];
    assert Escape([z]) == EscapeChar(z) + [] == EscapeChar(z);
    AppendAssoc(EscapeChar(x), EscapeChar(y), EscapeChar(z));
  }

  /** A no-break space is not printable, so `%q` writes it as `\u00a0`. */
  lemma EscapeNoBreakSpace()
    ensures EscapeChar('\U{A0}') == "\\u00a0"
  {
    assert HexDigits(0, 1) == "0";
    assert HexDigits(0, 2) == "00";
    assert HexDigits(10, 3) == "00a";
    assert HexDigits(0xA0, 4) == "00a0";
  }

  /** The literal of "a", a no-break space and "b". */
  lemma QuoteNoBreakSpaceExample()
    ensures Quote("a\U{A0}b") == "\"a\\u00a0b\""
  {
    EscapeThree('a', '\U{A0}', 'b');
    EscapeNoBreakSpace();
    assert "a\U{A0}b" == ['a', '\U{A0}', 'b'];
  }

  /** `strconv.ParseBool`: the accepted spellings, anything else is a parse error. */
  function ParseBool(s: string): (r: Wrappers.Option<bool>)
    ensures r.Some? ==> s != []
  {
    if s in {"1", "t", "T", "TRUE", "true", "True"} then Wrappers.Some(true)
    else if s in {"0", "f", "F", "FALSE", "false", "False"} then Wrappers.Some(false)
    else Wrappers.None
  }
}
