/**
 * The word counter's analysis effect: character, word, sentence and
 * paragraph counts, reading and speaking time, the ten most frequent words
 * and an `[a-z0-9]` frequency table, with the reset for blank text.
 */
module WordCounter {
  import opened JsString
  import opened Tally

  // ---------------------------------------------------------------
  // Separator classes of the split calls
  // ---------------------------------------------------------------

  predicate NotWhitespace(c: char) { !IsWhitespace(c) }

  /** `/[.!?]/` */
  predicate IsSentenceEnd(c: char) { c == '.' || c == '!' || c == '?' }

  /** `/\n/` */
  predicate IsNewline(c: char) { c == '\n' }

  // ---------------------------------------------------------------
  // The filters applied to the pieces
  // ---------------------------------------------------------------

  /** `pieces.filter(p => p.length > 0).length` */
  function NonEmptyCount(ps: seq<string>): (n: nat)
    ensures n <= |ps|
    decreases |ps|
  {
    if ps == [] then 0 else (if ps[0] != [] then 1 else 0) + NonEmptyCount(ps[1..])
  }

  /** `pieces.filter(p => p.trim().length > 0).length` */
  function NonBlankCount(ps: seq<string>): (n: nat)
    ensures n <= |ps|
    decreases |ps|
  {
    if ps == [] then 0 else (if Trim(ps[0]) != [] then 1 else 0) + NonBlankCount(ps[1..])
  }

  // ---------------------------------------------------------------
  // The counts as the effect computes them
  // ---------------------------------------------------------------

  /** `text.replace(/\s/g, '').length` */
  function CharactersNoSpaces(text: string): nat {
    |KeepWhere(text, NotWhitespace)|
  }

  /** `text.trim().split(/\s+/).filter(word => word.length > 0).length` */
  function Words(text: string): nat {
    NonEmptyCount(SplitRuns(Trim(text), IsWhitespace))
  }

  /** `text.split(/[.!?]+/).filter(s => s.trim().length > 0).length` */
  function Sentences(text: string): nat {
    NonBlankCount(SplitRuns(text, IsSentenceEnd))
  }

  /** `text.split(/\n+/).filter(p => p.trim().length > 0).length` */
  function Paragraphs(text: string): nat {
    NonBlankCount(SplitRuns(text, IsNewline))
  }

  /** `Math.ceil(n / d)` for a natural number over a positive one. */
  function CeilDiv(n: nat, d: nat): (r: nat)
    requires d > 0
    ensures d * r >= n
    ensures r > 0 ==> d * (r - 1) < n
  {
    (n + d - 1) / d
  }

  /** `Math.ceil(words / 225)` */
  function ReadingTime(words: nat): nat { CeilDiv(words, 225) }

  /** `Math.ceil(words / 150)` */
  function SpeakingTime(words: nat): nat { CeilDiv(words, 150) }

  // ---------------------------------------------------------------
  // Reference definitions: counting positions instead of pieces
  // ---------------------------------------------------------------

  /** Positions where a maximal run of non-separators ends. */
  function RunEnds(s: string, sep: char -> bool): nat
    decreases |s|
  {
    if s == [] then 0
    else (if !sep(s[0]) && (|s| == 1 || sep(s[1])) then 1 else 0) + RunEnds(s[1..], sep)
  }

  /** Only whitespace comes before the next separator or the end. */
  predicate BlankUntilSep(s: string, sep: char -> bool)
    decreases |s|
  {
    s == [] || sep(s[0]) || (IsWhitespace(s[0]) && BlankUntilSep(s[1..], sep))
  }

  /** Positions holding the last visible character of a segment: one that is
      neither a separator nor whitespace, with only whitespace after it up
      to the next separator. */
  function SegmentEnds(s: string, sep: char -> bool): nat
    decreases |s|
  {
    if s == [] then 0
    else (if !sep(s[0]) && !IsWhitespace(s[0]) && BlankUntilSep(s[1..], sep) then 1 else 0)
         + SegmentEnds(s[1..], sep)
  }

  // ---------------------------------------------------------------
  // Pieces against positions
  // ---------------------------------------------------------------

  /** The first piece is empty exactly when the text is empty or starts with
      a separator. */
  lemma {:induction false} FirstPieceEmpty(s: string, sep: char -> bool)
    ensures SplitRuns(s, sep)[0] == [] <==> s == [] || sep(s[0])
    decreases |s|
  {
    if s != [] && sep(s[0]) && |s| > 1 && sep(s[1]) {
      FirstPieceEmpty(s[1..], sep);
    }
  }

  /** The first piece is blank exactly when only whitespace comes before the
      first separator. */
  lemma {:induction false} FirstPieceBlank(s: string, sep: char -> bool)
    ensures IsBlank(SplitRuns(s, sep)[0]) <==> BlankUntilSep(s, sep)
    decreases |s|
  {
    if s != [] {
      var rest := SplitRuns(s[1..], sep);
      if !sep(s[0]) {
        assert SplitRuns(s, sep)[0] == [s[0]] + rest[0];
        FirstPieceBlank(s[1..], sep);
        BlankConcat([s[0]], rest[0]);
        BlankSingleton(s[0]);
      } else if |s| > 1 && sep(s[1]) {
        FirstPieceEmpty(s[1..], sep);
      }
    }
  }

  /** Non-empty pieces correspond one to one to the ends of runs. */
  lemma {:induction false} NonEmptyPieces(s: string, sep: char -> bool)
    ensures NonEmptyCount(SplitRuns(s, sep)) == RunEnds(s, sep)
    decreases |s|
  {
    if s != [] {
      var rest := SplitRuns(s[1..], sep);
      NonEmptyPieces(s[1..], sep);
      if !sep(s[0]) {
        var r := [[s[0]] + rest[0]] + rest[1..];
        assert SplitRuns(s, sep) == r;
        assert r[1..] == rest[1..];
        FirstPieceEmpty(s[1..], sep);
      } else if !(|s| > 1 && sep(s[1])) {
        assert ([[]] + rest)[1..] == rest;
      }
    }
  }

  lemma NonBlankHead(ps: seq<string>)
    requires ps != []
    ensures NonBlankCount(ps) == (if IsBlank(ps[0]) then 0 else 1) + NonBlankCount(ps[1..])
  {
    TrimBlank(ps[0]);
  }

  /** Non-blank pieces correspond one to one to the ends of segments. */
  lemma {:induction false} NonBlankPieces(s: string, sep: char -> bool)
    ensures NonBlankCount(SplitRuns(s, sep)) == SegmentEnds(s, sep)
    decreases |s|
  {
    if s == [] {
      assert NonBlankCount([[]]) == 0;
    } else {
      NonBlankPieces(s[1..], sep);
      if sep(s[0]) {
        NonBlankSkip(s, sep);
      } else {
        NonBlankExtend(s, sep);
      }
    }
  }

  /** A separator at the front adds no piece that counts. */
  lemma NonBlankSkip(s: string, sep: char -> bool)
    requires s != [] && sep(s[0])
    ensures NonBlankCount(SplitRuns(s, sep)) == NonBlankCount(SplitRuns(s[1..], sep))
    ensures SegmentEnds(s, sep) == SegmentEnds(s[1..], sep)
  {
    var rest := SplitRuns(s[1..], sep);
    if !(|s| > 1 && sep(s[1])) {
      var r := [[]] + rest;
      assert SplitRuns(s, sep) == r;
      assert r[1..] == rest;
      NonBlankHead(r);
    }
  }

  /** A non-separator at the front joins the first piece of the rest. */
  lemma NonBlankExtend(s: string, sep: char -> bool)
    requires s != [] && !sep(s[0])
    ensures NonBlankCount(SplitRuns(s, sep)) - SegmentEnds(s, sep) ==
            NonBlankCount(SplitRuns(s[1..], sep)) - SegmentEnds(s[1..], sep)
  {
    var rest := SplitRuns(s[1..], sep);
    var r := [[s[0]] + rest[0]] + rest[1..];
    assert SplitRuns(s, sep) == r;
    assert r[1..] == rest[1..];
    NonBlankHead(r);
    NonBlankHead(rest);
    FirstPieceBlank(s[1..], sep);
    BlankConcat([s[0]], rest[0]);
    BlankSingleton(s[0]);
  }

  // ---------------------------------------------------------------
  // Words are the maximal runs of non-whitespace
  // ---------------------------------------------------------------

  lemma {:induction false} RunEndsBlankPrefix(lead: string, t: string, sep: char -> bool)
    requires forall i :: 0 <= i < |lead| ==> sep(lead[i])
    ensures RunEnds(lead + t, sep) == RunEnds(t, sep)
    decreases |lead|
  {
    if lead != [] {
      assert (lead + t)[1..] == lead[1..] + t;
      RunEndsBlankPrefix(lead[1..], t, sep);
    } else {
      assert lead + t == t;
    }
  }

  lemma {:induction false} RunEndsBlankSuffix(t: string, tail: string, sep: char -> bool)
    requires forall i :: 0 <= i < |tail| ==> sep(tail[i])
    ensures RunEnds(t + tail, sep) == RunEnds(t, sep)
    decreases |t|
  {
    if t == [] {
      assert t + tail == tail + [];
      RunEndsBlankPrefix(tail, [], sep);
    } else {
      assert (t + tail)[1..] == t[1..] + tail;
      if |t| == 1 && tail != [] {
        assert (t + tail)[1] == tail[0];
      }
      if |t| > 1 {
        assert (t + tail)[1] == t[1];
      }
      RunEndsBlankSuffix(t[1..], tail, sep);
    }
  }

  /** `text.trim().split(/\s+/)` has one non-empty piece per maximal run of
      non-whitespace characters of `text`. */
  lemma WordsAreRuns(text: string)
    ensures Words(text) == RunEnds(text, IsWhitespace)
  {
    var lead, tail := TrimParts(text);
    NonEmptyPieces(Trim(text), IsWhitespace);
    RunEndsOfParts(lead, Trim(text), tail);
  }

  lemma RunEndsOfParts(lead: string, t: string, tail: string)
    requires IsBlank(lead) && IsBlank(tail)
    ensures RunEnds(lead + t + tail, IsWhitespace) == RunEnds(t, IsWhitespace)
  {
    RunEndsBlankPrefix(lead, t + tail, IsWhitespace);
    RunEndsBlankSuffix(t, tail, IsWhitespace);
    assert lead + t + tail == lead + (t + tail);
  }

  /** Text that is not blank has at least one run. */
  lemma {:induction false} RunEndsPositive(s: string)
    requires !IsBlank(s)
    ensures RunEnds(s, IsWhitespace) >= 1
    decreases |s|
  {
    if IsWhitespace(s[0]) || (|s| > 1 && !IsWhitespace(s[1])) {
      assert !IsBlank(s[1..]) by {
        var i :| 0 <= i < |s| && !IsWhitespace(s[i]);
        if i == 0 { assert !IsWhitespace(s[1..][0]); } else { assert s[1..][i - 1] == s[i]; }
      }
      RunEndsPositive(s[1..]);
    }
  }

  /** Each run ends at a distinct non-whitespace character. */
  lemma {:induction false} RunEndsBound(s: string)
    ensures RunEnds(s, IsWhitespace) <= CountWhere(s, NotWhitespace)
    decreases |s|
  {
    if s != [] {
      CountWhereFront(s, NotWhitespace);
      RunEndsBound(s[1..]);
    }
  }

  /** Each segment ends at a distinct non-whitespace character. */
  lemma {:induction false} SegmentEndsBound(s: string, sep: char -> bool)
    ensures SegmentEnds(s, sep) <= CountWhere(s, NotWhitespace)
    decreases |s|
  {
    if s != [] {
      CountWhereFront(s, NotWhitespace);
      SegmentEndsBound(s[1..], sep);
    }
  }

  /** Every character is whitespace or not. */
  lemma {:induction false} WhitespaceSplit(s: string)
    ensures CountWhere(s, IsWhitespace) + CountWhere(s, NotWhitespace) == |s|
    decreases |s|
  {
    if s != [] { WhitespaceSplit(s[..|s| - 1]); }
  }

  /** `charactersNoSpaces` is `characters` less the whitespace characters. */
  lemma CharactersNoSpacesCount(text: string)
    ensures CharactersNoSpaces(text) == |text| - CountWhere(text, IsWhitespace)
    ensures CharactersNoSpaces(text) <= |text|
  {
    KeepWhereLength(text, NotWhitespace);
    WhitespaceSplit(text);
  }

  /** Reading time never exceeds speaking time; both vanish exactly when there
      are no words, and both are the least number of minutes covering the
      words at 225 and 150 words per minute. */
  lemma Times(words: nat)
    ensures ReadingTime(words) <= SpeakingTime(words)
    ensures ReadingTime(words) == 0 <==> words == 0
    ensures SpeakingTime(words) == 0 <==> words == 0
    ensures 225 * ReadingTime(words) >= words && 150 * SpeakingTime(words) >= words
    ensures words > 0 ==> 225 * (ReadingTime(words) - 1) < words && 150 * (SpeakingTime(words) - 1) < words
  {
  }

  /** Lower-casing keeps whitespace where it was, so it keeps the runs. */
  lemma {:induction false} RunEndsLower(s: string)
    ensures RunEnds(LowerString(s), IsWhitespace) == RunEnds(s, IsWhitespace)
    decreases |s|
  {
    if s != [] {
      assert LowerString(s)[1..] == LowerString(s[1..]);
      RunEndsLower(s[1..]);
    }
  }

  /** Every character of every piece satisfies whatever all characters of the
      text satisfy. */
  lemma {:induction false} SplitRunsChars(s: string, sep: char -> bool, p: char -> bool)
    requires forall i :: 0 <= i < |s| ==> p(s[i])
    ensures forall i, j :: 0 <= i < |SplitRuns(s, sep)| && 0 <= j < |SplitRuns(s, sep)[i]| ==>
      p(SplitRuns(s, sep)[i][j])
    decreases |s|
  {
    if s != [] {
      SplitRunsChars(s[1..], sep, p);
      var rest := SplitRuns(s[1..], sep);
      assert forall i, j :: 0 <= i < |rest| && 0 <= j < |rest[i]| ==> p(rest[i][j]);
      if !sep(s[0]) {
        var r := [[s[0]] + rest[0]] + rest[1..];
        assert SplitRuns(s, sep) == r;
        assert forall i :: 1 <= i < |r| ==> r[i] == rest[i];
        forall j | 0 <= j < |r[0]| ensures p(r[0][j]) {
          if j > 0 {
            assert r[0][j] == rest[0][j - 1];
          } else {
            assert r[0][0] == s[0];
          }
        }
      }
    }
  }

  // ---------------------------------------------------------------
  // Word frequency
  // ---------------------------------------------------------------

  /** The tokens `text.trim().toLowerCase().split(/\s+/)`. */
  function Tokens(text: string): seq<string> {
    SplitRuns(LowerString(Trim(text)), IsWhitespace)
  }

  /** The characters the pattern `/[^\w\s]|_/g` leaves in place. */
  predicate IsKeptChar(c: char) { (IsWordChar(c) || IsWhitespace(c)) && c != '_' }

  /** `word.replace(/[^\w\s]|_/g, "")` */
  function Clean(word: string): string {
    KeepWhere(word, IsKeptChar)
  }

  /** The cleaned tokens that are not empty, in order. */
  function CleanWords(ts: seq<string>): seq<string>
    decreases |ts|
  {
    if ts == [] then []
    else (if Clean(ts[0]) != [] then [Clean(ts[0])] else []) + CleanWords(ts[1..])
  }

  /** The `wordFrequency` object the effect builds. */
  function WordFrequencyOf(text: string): Tally<string> {
    TallyOf(CleanWords(Tokens(text)))
  }

  lemma {:induction false} CleanWordsSnoc(ts: seq<string>, t: string)
    ensures CleanWords(ts + [t]) ==
      CleanWords(ts) + (if Clean(t) != [] then [Clean(t)] else [])
    decreases |ts|
  {
    if ts == [] {
      assert [] + [t] == [t];
      assert [t][1..] == [];
    } else {
      assert (ts + [t])[1..] == ts[1..] + [t];
      CleanWordsSnoc(ts[1..], t);
    }
  }

  lemma CleanWordsStep(ts: seq<string>, i: nat)
    requires i < |ts|
    ensures CleanWords(ts[..i + 1]) ==
      if Clean(ts[i]) != [] then CleanWords(ts[..i]) + [Clean(ts[i])] else CleanWords(ts[..i])
  {
    assert ts[..i + 1] == ts[..i] + [ts[i]];
    CleanWordsSnoc(ts[..i], ts[i]);
    assert CleanWords(ts[..i]) + [] == CleanWords(ts[..i]);
  }

  /** One token of the `forEach` loop: its cleaned form, when not empty, is
      the next word counted. */
  lemma FrequencyStep(ts: seq<string>, i: nat, words: seq<string>)
    requires i < |ts| && words == CleanWords(ts[..i])
    ensures CleanWords(ts[..i + 1]) == if Clean(ts[i]) != [] then words + [Clean(ts[i])] else words
    ensures Clean(ts[i]) != [] ==> TallyOf(words + [Clean(ts[i])]) == Bump(TallyOf(words), Clean(ts[i]))
  {
    CleanWordsStep(ts, i);
    TallyOfSnoc(words, Clean(ts[i]));
  }

  lemma CleanWordsWhole(ts: seq<string>)
    ensures CleanWords(ts[..|ts|]) == CleanWords(ts)
  {
    assert ts[..|ts|] == ts;
  }

  /** The `forEach` loop over the tokens. */
  method WordFrequency(text: string) returns (freq: Tally<string>)
    ensures freq == WordFrequencyOf(text)
  {
    var tokens := SplitRuns(LowerString(Trim(text)), IsWhitespace);
    freq := Tally([], map[]);
    ghost var words: seq<string> := [];
    for i := 0 to |tokens|
      invariant words == CleanWords(tokens[..i])
      invariant freq == TallyOf(words)
    {
      var cleanWord := KeepWhere(tokens[i], IsKeptChar);
      FrequencyStep(tokens, i, words);
      if |cleanWord| > 0 {
        freq := Bump(freq, cleanWord);
        words := words + [cleanWord];
      }
    }
    CleanWordsWhole(tokens);
  }

  predicate IsLowerAlnum(c: char) { IsAsciiLower(c) || IsDigit(c) }

  /** Every cleaned word is a non-empty string over `[a-z0-9]`, given tokens
      without whitespace or upper-case letters. */
  lemma {:induction false} CleanWordsChars(ts: seq<string>)
    requires forall i, j :: 0 <= i < |ts| && 0 <= j < |ts[i]| ==>
      !IsWhitespace(ts[i][j]) && !IsAsciiUpper(ts[i][j])
    ensures forall w :: w in CleanWords(ts) ==>
      w != [] && forall j :: 0 <= j < |w| ==> IsLowerAlnum(w[j])
    decreases |ts|
  {
    if ts != [] {
      CleanWordsChars(ts[1..]);
      assert forall i :: 1 <= i < |ts| ==> ts[1..][i - 1] == ts[i];
      var w := Clean(ts[0]);
      forall j | 0 <= j < |w| ensures IsLowerAlnum(w[j]) {
        KeptComeFrom(ts[0], IsKeptChar, j);
      }
    }
  }

  /** A kept character is a character of the original. */
  lemma {:induction false} KeptComeFrom(s: string, p: char -> bool, j: nat)
    requires j < |KeepWhere(s, p)|
    ensures exists i :: 0 <= i < |s| && s[i] == KeepWhere(s, p)[j]
    decreases |s|
  {
    var front := KeepWhere(s[..|s| - 1], p);
    if j < |front| {
      KeptComeFrom(s[..|s| - 1], p, j);
      var i :| 0 <= i < |s| - 1 && s[..|s| - 1][i] == front[j];
      assert s[i] == KeepWhere(s, p)[j];
    } else {
      assert KeepWhere(s, p)[j] == s[|s| - 1];
    }
  }

  /** The number of cleaned words is at most the number of non-empty tokens. */
  lemma {:induction false} CleanWordsCount(ts: seq<string>)
    ensures |CleanWords(ts)| <= NonEmptyCount(ts)
    decreases |ts|
  {
    if ts != [] { CleanWordsCount(ts[1..]); }
  }

  /** The keys of `wordFrequency` are non-empty `[a-z0-9]` words, each
      stores how many cleaned tokens equal it, and the frequencies add up to
      at most the word count. */
  lemma WordFrequencyFacts(text: string)
    ensures forall w :: w in WordFrequencyOf(text).counts ==>
      w != [] && forall j :: 0 <= j < |w| ==> IsLowerAlnum(w[j])
    ensures forall w :: CountOf(WordFrequencyOf(text), w) == multiset(CleanWords(Tokens(text)))[w]
    ensures Total(WordFrequencyOf(text)) <= Words(text)
  {
    TallyOfCounts(CleanWords(Tokens(text)));
    var lowered := LowerString(Trim(text));
    var ts := Tokens(text);
    SplitRunsChars(lowered, IsWhitespace, NotAsciiUpper);
    CleanWordsChars(ts);
    TallyOfKeys(CleanWords(ts));
    TallyOfTotal(CleanWords(ts));
    CleanWordsCount(ts);
    NonEmptyPieces(lowered, IsWhitespace);
    NonEmptyPieces(Trim(text), IsWhitespace);
    RunEndsLower(Trim(text));
  }

  predicate NotAsciiUpper(c: char) { !IsAsciiUpper(c) }

  // ---------------------------------------------------------------
  // Character frequency
  // ---------------------------------------------------------------

  /** The characters `text.toLowerCase().split('')` passes to the table. */
  function CharKeys(text: string): string {
    KeepWhere(LowerString(text), IsLowerAlnum)
  }

  /** The `letterFrequency` object the effect builds. */
  function CharFrequencyOf(text: string): Tally<char> {
    TallyOf(CharKeys(text))
  }

  lemma KeepWhereStep(s: string, i: nat, p: char -> bool)
    requires i < |s|
    ensures KeepWhere(s[..i + 1], p) ==
      if p(s[i]) then KeepWhere(s[..i], p) + [s[i]] else KeepWhere(s[..i], p)
  {
    assert s[..i + 1][..i] == s[..i];
    assert KeepWhere(s[..i], p) + [] == KeepWhere(s[..i], p);
  }

  /** The `forEach` loop over the lower-cased characters. */
  method CharFrequency(text: string) returns (freq: Tally<char>)
    ensures freq == CharFrequencyOf(text)
  {
    var lowered := LowerString(text);
    freq := Tally([], map[]);
    for i := 0 to |lowered|
      invariant freq == TallyOf(KeepWhere(lowered[..i], IsLowerAlnum))
    {
      var c := lowered[i];
      KeepWhereStep(lowered, i, IsLowerAlnum);
      if IsAsciiLower(c) || IsDigit(c) {
        TallyOfSnoc(KeepWhere(lowered[..i], IsLowerAlnum), c);
        freq := Bump(freq, c);
      }
    }
    WholeSlice(lowered);
  }

  /** Keeping the characters that satisfy `p` keeps every occurrence of each
      of them. */
  lemma {:induction false} KeepWhereOccurrences(s: string, p: char -> bool, c: char)
    requires p(c)
    ensures multiset(KeepWhere(s, p))[c] == multiset(s)[c]
    decreases |s|
  {
    if s != [] {
      KeepWhereOccurrences(s[..|s| - 1], p, c);
      assert s == s[..|s| - 1] + [s[|s| - 1]];
    }
  }

  /** The keys of `letterFrequency` are in `[a-z0-9]`, each counts the
      occurrences of its character in the lower-cased text, and the values
      add up to at most the number of characters. */
  lemma CharFrequencyFacts(text: string)
    ensures forall c :: c in CharFrequencyOf(text).counts ==> IsLowerAlnum(c)
    ensures forall c :: IsLowerAlnum(c) ==>
      CountOf(CharFrequencyOf(text), c) == multiset(LowerString(text))[c]
    ensures Total(CharFrequencyOf(text)) <= |text|
  {
    var keys := CharKeys(text);
    TallyOfKeys(keys);
    TallyOfCounts(keys);
    TallyOfTotal(keys);
    forall c | c in CharFrequencyOf(text).counts ensures IsLowerAlnum(c) {
      var i :| 0 <= i < |keys| && keys[i] == c;
    }
    forall c | IsLowerAlnum(c)
      ensures CountOf(CharFrequencyOf(text), c) == multiset(LowerString(text))[c]
    {
      KeepWhereOccurrences(LowerString(text), IsLowerAlnum, c);
    }
  }

  // ---------------------------------------------------------------
  // Finding: the word `constructor`
  // ---------------------------------------------------------------

  /** The values `wordFrequency[w]` can take on the page. */
  datatype JsValue = Undefined | Num(n: int) | Str(s: string) | ObjectFunction

  /** The name every object literal inherits from `Object.prototype` that is
      also a possible cleaned word: the only such name made of `[a-z0-9]`. */
  const InheritedKey := "constructor"

  /** `String(Object)` */
  const ObjectSource := "function Object() { [native code] }"

  /** `obj[w]` on an object created as `{}` whose own entries are `own`. */
  function Lookup(own: map<string, JsValue>, w: string): JsValue {
    if w in own then own[w] else if w == InheritedKey then ObjectFunction else Undefined
  }

  /** `v || 0` */
  function OrZero(v: JsValue): (r: JsValue)
    ensures r != Undefined
  {
    if v == Undefined || v == Num(0) || v == Str("") then Num(0) else v
  }

  /** `v + 1`: a number is incremented; anything else is converted to a
      string and "1" is appended. */
  function PlusOne(v: JsValue): JsValue
    requires v != Undefined
  {
    match v
    case Num(n) => Num(n + 1)
    case Str(t) => Str(t + "1")
    case ObjectFunction => Str(ObjectSource + "1")
  }

  /** The own entries of `wordFrequency` after the `forEach` loop has stored
      each word of `words`, as written. */
  function TableAsWritten(words: seq<string>): map<string, JsValue>
    decreases |words|
  {
    if words == [] then map[]
    else
      var own := TableAsWritten(words[..|words| - 1]);
      var w := words[|words| - 1];
      own[w := PlusOne(OrZero(Lookup(own, w)))]
  }

  /** `"1"` repeated `n` times. */
  function Ones(n: nat): string {
    if n == 0 then [] else Ones(n - 1) + "1"
  }

  /** For every word but `constructor` the object as written holds the count
      the intended table holds (and nothing for a word that never occurs). */
  lemma {:induction false} AsWrittenOtherWords(words: seq<string>, w: string)
    requires w != InheritedKey
    ensures Lookup(TableAsWritten(words), w) ==
      if multiset(words)[w] == 0 then Undefined else Num(multiset(words)[w])
    decreases |words|
  {
    if words != [] {
      var init, last := words[..|words| - 1], words[|words| - 1];
      AsWrittenOtherWords(init, w);
      assert words == init + [last];
      assert multiset(words)[w] == multiset(init)[w] + multiset([last])[w];
    }
  }

  /** As written, `constructor` holds the inherited function until its first
      occurrence, and from then on a string: the source text of `Object`
      followed by one "1" per occurrence. */
  lemma {:induction false} AsWrittenConstructor(words: seq<string>)
    ensures var k := multiset(words)[InheritedKey];
      Lookup(TableAsWritten(words), InheritedKey) ==
        if k == 0 then ObjectFunction else Str(ObjectSource + Ones(k))
    decreases |words|
  {
    if words != [] {
      var init, last := words[..|words| - 1], words[|words| - 1];
      AsWrittenConstructor(init);
      assert words == init + [last];
      assert multiset(words)[InheritedKey] == multiset(init)[InheritedKey] + multiset([last])[InheritedKey];
      var k := multiset(init)[InheritedKey];
      if last == InheritedKey && k > 0 {
        assert ObjectSource + Ones(k) + "1" == ObjectSource + Ones(k + 1);
      }
    }
  }

  /** Text made of one `[a-z0-9]` word is that word alone after splitting and
      cleaning. */
  lemma SingleWordTokens(w: string)
    requires w != [] && forall j :: 0 <= j < |w| ==> IsLowerAlnum(w[j])
    ensures CleanWords(Tokens(w)) == [w]
  {
    assert Trim(w) == w;
    assert LowerString(w) == w;
    NoSeparatorRun(w, IsWhitespace);
    KeepAll(w, IsKeptChar);
    assert [w][1..] == [];
  }

  lemma {:induction false} NoSeparatorRun(s: string, sep: char -> bool)
    requires forall j :: 0 <= j < |s| ==> !sep(s[j])
    ensures SplitRuns(s, sep) == [s]
    decreases |s|
  {
    if s != [] {
      NoSeparatorRun(s[1..], sep);
      assert [s[0]] + s[1..] == s;
    }
  }

  lemma {:induction false} KeepAll(s: string, p: char -> bool)
    requires forall j :: 0 <= j < |s| ==> p(s[j])
    ensures KeepWhere(s, p) == s
    decreases |s|
  {
    if s != [] {
      KeepAll(s[..|s| - 1], p);
      assert s[..|s| - 1] + [s[|s| - 1]] == s;
    }
  }

  /** The text `constructor`: the intended table counts the word once, while
      the page's object holds a string under it, which the ranking's
      `b.count - a.count` turns into NaN. */
  lemma ConstructorCountedAsString()
    ensures CountOf(WordFrequencyOf(InheritedKey), InheritedKey) == 1
    ensures Lookup(TableAsWritten(CleanWords(Tokens(InheritedKey))), InheritedKey) == Str(ObjectSource + "1")
  {
    SingleWordTokens(InheritedKey);
    AsWrittenConstructor([InheritedKey]);
    assert multiset([InheritedKey])[InheritedKey] == 1;
    assert Ones(1) == "1";
    TallyOfCounts([InheritedKey]);
  }

  // ---------------------------------------------------------------
  // The ten most frequent words
  // ---------------------------------------------------------------

  /** `{ word, count }` */
  datatype Entry = Entry(word: string, count: nat)

  /** `Object.entries(wordFrequency)`, taken in key order. */
  function Entries(t: Tally<string>): seq<Entry> {
    seq(|t.keys|, i requires 0 <= i < |t.keys| => Entry(t.keys[i], CountOf(t, t.keys[i])))
  }

  predicate NonIncreasing(es: seq<Entry>) {
    forall i, j :: 0 <= i < j < |es| ==> es[i].count >= es[j].count
  }

  /** Places `e` before the first entry whose count is not greater. */
  function InsertByCount(e: Entry, es: seq<Entry>): (r: seq<Entry>)
    requires NonIncreasing(es)
    ensures NonIncreasing(r)
    ensures multiset(r) == multiset(es) + multiset{e}
    decreases |es|
  {
    if es == [] || es[0].count <= e.count then [e] + es
    else
      var rest := InsertByCount(e, es[1..]);
      assert es == [es[0]] + es[1..];
      CountsAtMost(rest, es[1..], e, es[0].count);
      ConsNonIncreasing(es[0], rest);
      [es[0]] + rest
  }

  lemma CountsAtMost(r: seq<Entry>, es: seq<Entry>, e: Entry, bound: nat)
    requires multiset(r) == multiset(es) + multiset{e}
    requires e.count <= bound
    requires forall j :: 0 <= j < |es| ==> es[j].count <= bound
    ensures forall j :: 0 <= j < |r| ==> r[j].count <= bound
  {
    forall j | 0 <= j < |r| ensures r[j].count <= bound {
      assert r[j] in multiset(r);
      if r[j] != e {
        assert r[j] in multiset(es);
      }
    }
  }

  lemma ConsNonIncreasing(x: Entry, r: seq<Entry>)
    requires NonIncreasing(r)
    requires forall j :: 0 <= j < |r| ==> r[j].count <= x.count
    ensures NonIncreasing([x] + r)
  {
    forall i, j | 0 <= i < j < |[x] + r| ensures ([x] + r)[i].count >= ([x] + r)[j].count {
      if i > 0 { assert ([x] + r)[i] == r[i - 1]; }
      assert ([x] + r)[j] == r[j - 1];
    }
  }

  /** `entries.sort((a, b) => b.count - a.count)`: a stable sort by
      decreasing count. */
  function SortByCount(es: seq<Entry>): (r: seq<Entry>)
    ensures NonIncreasing(r)
    ensures multiset(r) == multiset(es)
    decreases |es|
  {
    if es == [] then []
    else
      assert es == [es[0]] + es[1..];
      InsertByCount(es[0], SortByCount(es[1..]))
  }

  /** `.slice(0, 10)` of the sorted entries. */
  function MostFrequentWords(t: Tally<string>): seq<Entry> {
    var sorted := SortByCount(Entries(t));
    if |sorted| <= 10 then sorted else sorted[..10]
  }

  lemma SortedLength(es: seq<Entry>)
    ensures |SortByCount(es)| == |es|
  {
    assert |multiset(SortByCount(es))| == |multiset(es)|;
  }

  /** At most ten entries, by non-increasing count. */
  lemma MostFrequentShape(t: Tally<string>)
    ensures |MostFrequentWords(t)| == if |t.keys| <= 10 then |t.keys| else 10
    ensures NonIncreasing(MostFrequentWords(t))
  {
    SortedLength(Entries(t));
  }

  /** Each listed entry carries its word's frequency. */
  lemma MostFrequentCounts(t: Tally<string>)
    requires Valid(t)
    ensures forall i :: 0 <= i < |MostFrequentWords(t)| ==>
      MostFrequentWords(t)[i].word in t.counts &&
      MostFrequentWords(t)[i].count == CountOf(t, MostFrequentWords(t)[i].word)
  {
    var es := Entries(t);
    var sorted := SortByCount(es);
    var r := MostFrequentWords(t);
    forall i | 0 <= i < |r|
      ensures r[i].word in t.counts && r[i].count == CountOf(t, r[i].word)
    {
      assert r[i] == sorted[i];
      assert sorted[i] in multiset(es);
    }
  }

  /** In a list of non-increasing counts, an entry that is not among the
      first `n` has a count no greater than each of them. */
  lemma LeftOutBelow(sorted: seq<Entry>, n: nat, e: Entry)
    requires NonIncreasing(sorted) && n <= |sorted|
    requires e in sorted
    requires forall i :: 0 <= i < n ==> sorted[i].word != e.word
    ensures forall i :: 0 <= i < n ==> e.count <= sorted[i].count
  {
    var q :| 0 <= q < |sorted| && sorted[q] == e;
    assert q >= n;
  }

  /** The listed word's entry is among the sorted entries. */
  lemma EntrySorted(t: Tally<string>, w: string)
    requires Valid(t) && w in t.counts
    ensures Entry(w, CountOf(t, w)) in SortByCount(Entries(t))
  {
    var es := Entries(t);
    var p :| 0 <= p < |t.keys| && t.keys[p] == w;
    assert es[p] == Entry(w, CountOf(t, w));
    assert es[p] in multiset(SortByCount(es));
  }

  /** A word left off the list occurs at most as often as each listed word. */
  lemma MostFrequentTop(t: Tally<string>, w: string)
    requires Valid(t)
    requires w in t.counts
    requires forall i :: 0 <= i < |MostFrequentWords(t)| ==> MostFrequentWords(t)[i].word != w
    ensures forall i :: 0 <= i < |MostFrequentWords(t)| ==> CountOf(t, w) <= MostFrequentWords(t)[i].count
  {
    var sorted := SortByCount(Entries(t));
    var r := MostFrequentWords(t);
    assert |r| <= |sorted| && forall i :: 0 <= i < |r| ==> r[i] == sorted[i];
    EntrySorted(t, w);
    LeftOutBelow(sorted, |r|, Entry(w, CountOf(t, w)));
  }

  // ---------------------------------------------------------------
  // The report
  // ---------------------------------------------------------------

  datatype WordStats = WordStats(
    characters: nat, charactersNoSpaces: nat, words: nat, sentences: nat,
    paragraphs: nat, readingTime: nat, speakingTime: nat,
    mostFrequentWords: seq<Entry>, letterFrequency: Tally<char>)

  const EmptyStats := WordStats(0, 0, 0, 0, 0, 0, 0, [], Tally([], map[]))

  /** What the effect stores for `text`. */
  function Report(text: string): WordStats {
    if Trim(text) == [] then EmptyStats
    else
      var words := Words(text);
      WordStats(|text|, CharactersNoSpaces(text), words, Sentences(text), Paragraphs(text),
                ReadingTime(words), SpeakingTime(words),
                MostFrequentWords(WordFrequencyOf(text)), CharFrequencyOf(text))
  }

  /** The analysis effect: the reset for blank text, the counts, then the two
      frequency loops. */
  method Analyze(text: string) returns (stats: WordStats)
    ensures stats == Report(text)
  {
    if Trim(text) == [] {
      return EmptyStats;
    }
    var characters := |text|;
    var charactersNoSpaces := |KeepWhere(text, NotWhitespace)|;
    var words := NonEmptyCount(SplitRuns(Trim(text), IsWhitespace));
    var sentences := NonBlankCount(SplitRuns(text, IsSentenceEnd));
    var paragraphs := NonBlankCount(SplitRuns(text, IsNewline));
    var readingTime := CeilDiv(words, 225);
    var speakingTime := CeilDiv(words, 150);
    var wordFrequency := WordFrequency(text);
    var mostFrequentWords := MostFrequentWords(wordFrequency);
    var letterFrequency := CharFrequency(text);
    stats := WordStats(characters, charactersNoSpaces, words, sentences, paragraphs,
                       readingTime, speakingTime, mostFrequentWords, letterFrequency);
  }

  /** Empty or whitespace-only text reports zero everywhere, `characters`
      included, whatever its length; any other text reports its length. */
  lemma BlankReport(text: string)
    ensures IsBlank(text) ==> Report(text) == EmptyStats
    ensures !IsBlank(text) ==> Report(text).characters == |text| > 0
  {
    TrimBlank(text);
  }

  /** The counts of a text that is not blank. */
  lemma ReportCounts(text: string)
    requires !IsBlank(text)
    ensures var r := Report(text);
      r.charactersNoSpaces == r.characters - CountWhere(text, IsWhitespace) &&
      r.charactersNoSpaces <= r.characters
    ensures var r := Report(text);
      r.words == RunEnds(text, IsWhitespace) && 1 <= r.words <= r.charactersNoSpaces
    ensures var r := Report(text);
      r.sentences == SegmentEnds(text, IsSentenceEnd) && r.sentences <= r.charactersNoSpaces
    ensures var r := Report(text);
      r.paragraphs == SegmentEnds(text, IsNewline) && r.paragraphs <= r.charactersNoSpaces
    ensures var r := Report(text);
      1 <= r.readingTime <= r.speakingTime && r.speakingTime == CeilDiv(r.words, 150)
  {
    TrimBlank(text);
    CharactersNoSpacesCount(text);
    KeepWhereLength(text, NotWhitespace);
    WordsAreRuns(text);
    RunEndsPositive(text);
    RunEndsBound(text);
    NonBlankPieces(text, IsSentenceEnd);
    SegmentEndsBound(text, IsSentenceEnd);
    NonBlankPieces(text, IsNewline);
    SegmentEndsBound(text, IsNewline);
    Times(Words(text));
  }

  /** The character table of a text that is not blank. */
  lemma ReportLetterFrequency(text: string)
    requires !IsBlank(text)
    ensures forall c :: c in Report(text).letterFrequency.counts ==> IsLowerAlnum(c)
    ensures forall c :: IsLowerAlnum(c) ==>
      CountOf(Report(text).letterFrequency, c) == multiset(LowerString(text))[c]
    ensures Total(Report(text).letterFrequency) <= Report(text).characters
  {
    TrimBlank(text);
    assert Report(text).letterFrequency == CharFrequencyOf(text);
    CharFrequencyFacts(text);
  }

  /** The ranking of a text that is not blank: at most ten non-empty
      `[a-z0-9]` words by non-increasing count, each with its frequency, and
      frequencies adding up to at most the word count. */
  lemma ReportMostFrequent(text: string)
    requires !IsBlank(text)
    ensures var m := Report(text).mostFrequentWords;
      |m| <= 10 && NonIncreasing(m)
    ensures var m := Report(text).mostFrequentWords;
      forall i :: 0 <= i < |m| ==>
        m[i].count == CountOf(WordFrequencyOf(text), m[i].word) && m[i].word != [] &&
        forall j :: 0 <= j < |m[i].word| ==> IsLowerAlnum(m[i].word[j])
    ensures Total(WordFrequencyOf(text)) <= Report(text).words
  {
    TrimBlank(text);
    var freq := WordFrequencyOf(text);
    assert Report(text).mostFrequentWords == MostFrequentWords(freq);
    assert Report(text).words == Words(text);
    WordFrequencyFacts(text);
    MostFrequentShape(freq);
    MostFrequentCounts(freq);
  }
}
