/**
 * The parts of JavaScript's string library that the tools rely on, over
 * strings as sequences of characters: the `\s` class of regular expressions
 * (which is also the set `String.prototype.trim` strips), ASCII case mapping,
 * `trim`, `split` by one character and by a run-collapsing character class
 * (`/[...]+/`), `join`, `startsWith`, `includes` and the decimal rendering of
 * a number.
 */
module JsString {

  /** `\s`: the ECMAScript WhiteSpace and LineTerminator code points. */
  predicate IsWhitespace(c: char) {
    var n := c as int;
    (0x09 <= n <= 0x0D) || n == 0x20 || n == 0xA0 || n == 0x1680 ||
    (0x2000 <= n <= 0x200A) || n == 0x2028 || n == 0x2029 || n == 0x202F ||
    n == 0x205F || n == 0x3000 || n == 0xFEFF
  }

  predicate IsAsciiUpper(c: char) { 'A' <= c <= 'Z' }

  predicate IsAsciiLower(c: char) { 'a' <= c <= 'z' }

  /** `/[a-zA-Z]/` */
  predicate IsAsciiLetter(c: char) { IsAsciiUpper(c) || IsAsciiLower(c) }

  /** `/\d/` */
  predicate IsDigit(c: char) { '0' <= c <= '9' }

  /** `/\w/` (a regular expression without the `u` flag) */
  predicate IsWordChar(c: char) { IsAsciiLetter(c) || IsDigit(c) || c == '_' }

  /** `toLowerCase` restricted to ASCII. */
  function ToLower(c: char): char {
    if IsAsciiUpper(c) then (c as int + 32) as char else c
  }

  /** `toUpperCase` restricted to ASCII. */
  function ToUpper(c: char): char {
    if IsAsciiLower(c) then (c as int - 32) as char else c
  }

  function LowerString(s: string): string {
    seq(|s|, i requires 0 <= i < |s| => ToLower(s[i]))
  }

  /** `s.trim() === ''` */
  predicate IsBlank(s: string) {
    forall i :: 0 <= i < |s| ==> IsWhitespace(s[i])
  }

  lemma BlankConcat(a: string, b: string)
    ensures IsBlank(a + b) <==> IsBlank(a) && IsBlank(b)
  {
    if IsBlank(a) && IsBlank(b) {
      forall i | 0 <= i < |a + b| ensures IsWhitespace((a + b)[i]) {
        if i >= |a| { assert (a + b)[i] == b[i - |a|]; }
      }
    }
    if IsBlank(a + b) {
      forall i | 0 <= i < |a| ensures IsWhitespace(a[i]) {
        assert (a + b)[i] == a[i];
      }
      forall i | 0 <= i < |b| ensures IsWhitespace(b[i]) {
        assert (a + b)[|a| + i] == b[i];
      }
    }
  }

  lemma BlankSingleton(c: char)
    ensures IsBlank([c]) <==> IsWhitespace(c)
  {
    assert [c][0] == c;
  }

  /** Drops the leading whitespace. */
  function TrimStart(s: string): (r: string)
    ensures |r| <= |s| && r == s[|s| - |r|..]
    ensures IsBlank(s[..|s| - |r|])
    ensures r != [] ==> !IsWhitespace(r[0])
    decreases |s|
  {
    if s != [] && IsWhitespace(s[0]) then
      var r := TrimStart(s[1..]);
      assert s[..|s| - |r|] == [s[0]] + s[1..][..|s| - 1 - |r|];
      r
    else s
  }

  /** Drops the trailing whitespace. */
  function TrimEnd(s: string): (r: string)
    ensures |r| <= |s| && r == s[..|r|]
    ensures IsBlank(s[|r|..])
    ensures r != [] ==> !IsWhitespace(r[|r| - 1])
    decreases |s|
  {
    if s != [] && IsWhitespace(s[|s| - 1]) then
      var r := TrimEnd(s[..|s| - 1]);
      assert s[|r|..] == s[..|s| - 1][|r|..] + [s[|s| - 1]];
      r
    else s
  }

  /** `String.prototype.trim` */
  function Trim(s: string): (r: string)
    ensures r != [] ==> !IsWhitespace(r[0]) && !IsWhitespace(r[|r| - 1])
  {
    TrimEnd(TrimStart(s))
  }

  lemma SuffixSplit(s: string, r: string)
    requires |r| <= |s| && r == s[|s| - |r|..]
    ensures s == s[..|s| - |r|] + r
  {
  }

  lemma PrefixSplit(u: string, t: string)
    requires |t| <= |u| && t == u[..|t|]
    ensures u == t + u[|t|..]
  {
  }

  lemma Sandwich(s: string, lead: string, u: string, t: string, tail: string)
    requires s == lead + u && u == t + tail
    ensures s == lead + t + tail
  {
  }

  /** The trimmed text sits between a blank prefix and a blank suffix. */
  lemma TrimParts(s: string) returns (lead: string, tail: string)
    ensures s == lead + Trim(s) + tail
    ensures IsBlank(lead) && IsBlank(tail)
  {
    var u := TrimStart(s);
    var t := TrimEnd(u);
    lead := s[..|s| - |u|];
    tail := u[|t|..];
    SuffixSplit(s, u);
    PrefixSplit(u, t);
    Sandwich(s, lead, u, t, tail);
  }

  /** Trimming keeps a run of the text's own characters, and trimming again
      changes nothing. */
  lemma TrimFacts(s: string)
    ensures forall c :: c in Trim(s) ==> c in s
    ensures Trim(Trim(s)) == Trim(s)
  {
    var lead, tail := TrimParts(s);
    var t := Trim(s);
    forall c | c in t ensures c in s {
      var k :| 0 <= k < |t| && t[k] == c;
      assert s[|lead| + k] == c;
    }
  }

  /** Trimming leaves nothing exactly when the text is blank. */
  lemma TrimBlank(s: string)
    ensures Trim(s) == [] <==> IsBlank(s)
  {
    var lead, tail := TrimParts(s);
    var t := Trim(s);
    BlankConcat(lead, t);
    BlankConcat(lead + t, tail);
    if t != [] {
      assert !IsWhitespace(t[0]);
    }
  }

  /** `s.split(c)`: the pieces between single occurrences of `sep`. */
  function SplitAt(s: string, sep: char): (r: seq<string>)
    ensures |r| >= 1
    ensures forall i :: 0 <= i < |r| ==> sep !in r[i]
    decreases |s|
  {
    if s == [] then [[]]
    else
      var rest := SplitAt(s[1..], sep);
      if s[0] == sep then [[]] + rest else [[s[0]] + rest[0]] + rest[1..]
  }

  /** `s.split(sep)` has one piece more than `s` has occurrences of `sep`. */
  lemma {:induction false} SplitAtCount(s: string, sep: char)
    ensures |SplitAt(s, sep)| == multiset(s)[sep] + 1
    decreases |s|
  {
    if s != [] {
      SplitAtCount(s[1..], sep);
      assert s == [s[0]] + s[1..];
      assert multiset(s) == multiset{s[0]} + multiset(s[1..]);
    }
  }

  /** `parts.join(sep)` */
  function Join(parts: seq<string>, sep: char): string
    decreases |parts|
  {
    if |parts| == 0 then []
    else if |parts| == 1 then parts[0]
    else parts[0] + [sep] + Join(parts[1..], sep)
  }

  /** Splitting at a character and joining at it again gives the text back. */
  lemma {:induction false} JoinSplitAt(s: string, sep: char)
    ensures Join(SplitAt(s, sep), sep) == s
    decreases |s|
  {
    if s != [] {
      var rest := SplitAt(s[1..], sep);
      JoinSplitAt(s[1..], sep);
      if s[0] == sep {
        assert SplitAt(s, sep) == [[]] + rest;
        assert ([[]] + rest)[1..] == rest;
      } else {
        var r := [[s[0]] + rest[0]] + rest[1..];
        assert SplitAt(s, sep) == r;
        if |rest| == 1 {
          assert Join(r, sep) == [s[0]] + rest[0];
        } else {
          assert r[1..] == rest[1..];
          assert Join(r, sep) == [s[0]] + rest[0] + [sep] + Join(rest[1..], sep);
        }
      }
    }
  }

  /** `s.split(sep).pop()` */
  function LastPiece(s: string, sep: char): string {
    var r := SplitAt(s, sep);
    r[|r| - 1]
  }

  /** Text without `sep` splits into itself alone. */
  lemma SingleSplit(s: string, sep: char)
    requires |SplitAt(s, sep)| == 1
    ensures SplitAt(s, sep)[0] == s
  {
    JoinSplitAt(s, sep);
  }

  /** Text without `sep` is one piece. */
  lemma {:induction false} NoSepOnePiece(s: string, sep: char)
    requires sep !in s
    ensures |SplitAt(s, sep)| == 1
    decreases |s|
  {
    if s != [] {
      assert s[1..] == s[1..];
      assert forall x :: x in s[1..] ==> x in s;
      NoSepOnePiece(s[1..], sep);
    }
  }

  /** The last piece of `s.split(sep)` is the longest suffix of `s` without
      `sep`; it is preceded by `sep` unless it is all of `s`. */
  lemma {:induction false} LastPieceSuffix(s: string, sep: char)
    ensures var p := LastPiece(s, sep);
      |p| <= |s| && p == s[|s| - |p|..] && sep !in p && (|p| < |s| ==> s[|s| - |p| - 1] == sep)
    decreases |s|
  {
    if s != [] {
      LastPieceSuffix(s[1..], sep);
      var rest := SplitAt(s[1..], sep);
      if s[0] == sep || |rest| > 1 {
        LastPieceOfRest(s, sep);
      } else {
        LastPieceWhole(s, sep);
        assert s[|s| - |s|..] == s;
      }
    }
  }

  /** When the rest of the text is one piece and the text does not start with
      `sep`, the text itself is the last piece. */
  lemma LastPieceWhole(s: string, sep: char)
    requires s != [] && s[0] != sep && |SplitAt(s[1..], sep)| == 1
    ensures LastPiece(s, sep) == s && sep !in s
  {
    var rest := SplitAt(s[1..], sep);
    SingleSplit(s[1..], sep);
    assert [s[0]] + rest[0] == s;
    assert SplitAt(s, sep) == [s];
  }

  lemma LastPieceOfRest(s: string, sep: char)
    requires s != []
    requires s[0] == sep || |SplitAt(s[1..], sep)| > 1
    requires var p := LastPiece(s[1..], sep);
      |p| <= |s| - 1 && p == s[1..][|s| - 1 - |p|..] && sep !in p &&
      (|p| < |s| - 1 ==> s[1..][|s| - 1 - |p| - 1] == sep)
    ensures LastPiece(s, sep) == LastPiece(s[1..], sep)
    ensures var p := LastPiece(s, sep);
      |p| < |s| && p == s[|s| - |p|..] && s[|s| - |p| - 1] == sep
  {
    var rest := SplitAt(s[1..], sep);
    var p := LastPiece(s[1..], sep);
    if s[0] == sep {
      assert SplitAt(s, sep) == [[]] + rest;
    } else {
      assert SplitAt(s, sep) == [[s[0]] + rest[0]] + rest[1..];
      if |p| == |s| - 1 {
        assert p == s[1..];
        NoSepOnePiece(s[1..], sep);
      }
    }
  }

  /** The first piece of `s.split(sep)` is the longest prefix of `s` without
      `sep`; it is followed by `sep` unless it is all of `s`. */
  lemma FirstPiece(s: string, sep: char)
    ensures var p := SplitAt(s, sep)[0];
      |p| <= |s| && p == s[..|p|] && sep !in p && (|p| < |s| ==> s[|p|] == sep)
  {
    var r := SplitAt(s, sep);
    JoinSplitAt(s, sep);
    if |r| > 1 {
      assert s == r[0] + [sep] + Join(r[1..], sep);
      assert s[..|r[0]|] == r[0];
    }
  }

  /**
   * `s.split(/[class]+/)`, where `sep` says which characters are in the class:
   * the pieces between maximal runs of separators, with an empty first (last)
   * piece when `s` starts (ends) with a separator, as ECMAScript's split does.
   */
  function SplitRuns(s: string, sep: char -> bool): (r: seq<string>)
    ensures |r| >= 1
    ensures forall i, j :: 0 <= i < |r| && 0 <= j < |r[i]| ==> !sep(r[i][j])
    decreases |s|
  {
    if s == [] then [[]]
    else
      var rest := SplitRuns(s[1..], sep);
      if !sep(s[0]) then
        var r := [[s[0]] + rest[0]] + rest[1..];
        assert forall i :: 1 <= i < |r| ==> r[i] == rest[i];
        r
      else if |s| > 1 && sep(s[1]) then rest
      else [[]] + rest
  }

  /** The characters of `s` that satisfy `p`, in order. */
  function KeepWhere(s: string, p: char -> bool): (r: string)
    ensures |r| <= |s|
    ensures forall i :: 0 <= i < |r| ==> p(r[i])
    decreases |s|
  {
    if s == [] then []
    else KeepWhere(s[..|s| - 1], p) + (if p(s[|s| - 1]) then [s[|s| - 1]] else [])
  }

  /** The number of characters of `s` that satisfy `p`. */
  function CountWhere(s: string, p: char -> bool): (n: nat)
    ensures n <= |s|
    decreases |s|
  {
    if s == [] then 0
    else CountWhere(s[..|s| - 1], p) + (if p(s[|s| - 1]) then 1 else 0)
  }

  lemma {:induction false} CountWhereAppend(a: string, b: string, p: char -> bool)
    ensures CountWhere(a + b, p) == CountWhere(a, p) + CountWhere(b, p)
    decreases |b|
  {
    if b != [] {
      assert (a + b)[..|a + b| - 1] == a + b[..|b| - 1];
      CountWhereAppend(a, b[..|b| - 1], p);
    } else {
      assert a + b == a;
    }
  }

  lemma CountWhereFront(s: string, p: char -> bool)
    requires s != []
    ensures CountWhere(s, p) == (if p(s[0]) then 1 else 0) + CountWhere(s[1..], p)
  {
    assert s == [s[0]] + s[1..];
    CountWhereAppend([s[0]], s[1..], p);
    assert [s[0]][..0] == [];
  }

  lemma {:induction false} KeepWhereLength(s: string, p: char -> bool)
    ensures |KeepWhere(s, p)| == CountWhere(s, p)
    decreases |s|
  {
    if s != [] { KeepWhereLength(s[..|s| - 1], p); }
  }

  predicate StartsWith(s: string, prefix: string) {
    |prefix| <= |s| && s[..|prefix|] == prefix
  }

  predicate OccursAt(s: string, sub: string, i: int) {
    0 <= i <= |s| - |sub| && s[i..i + |sub|] == sub
  }

  /** `s.includes(sub)` */
  predicate Includes(s: string, sub: string) {
    exists i :: 0 <= i <= |s| && OccursAt(s, sub, i)
  }

  /** The slice up to the length is the whole sequence. */
  lemma WholeSlice<T>(s: seq<T>)
    ensures s[..|s|] == s
  {
  }

  function DigitChar(d: nat): char
    requires d < 10
  {
    ('0' as int + d) as char
  }

  /** `n.toString()` for a natural number. */
  function NatToString(n: nat): (r: string)
    ensures |r| >= 1
    ensures forall i :: 0 <= i < |r| ==> IsDigit(r[i])
  {
    if n < 10 then [DigitChar(n)] else NatToString(n / 10) + [DigitChar(n % 10)]
  }

  /** `n.toString()` for an integer. */
  function IntToString(n: int): string {
    if n < 0 then "-" + NatToString(-n) else NatToString(n)
  }

  /** The value of a string of decimal digits. */
  function ParseDigits(s: string): int
    decreases |s|
  {
    if s == [] then 0 else ParseDigits(s[..|s| - 1]) * 10 + (s[|s| - 1] as int - '0' as int)
  }

  lemma {:induction false} ParseNatToString(n: nat)
    ensures ParseDigits(NatToString(n)) == n
  {
    if n >= 10 {
      var r := NatToString(n);
      assert r[..|r| - 1] == NatToString(n / 10);
      ParseNatToString(n / 10);
    }
  }
}
