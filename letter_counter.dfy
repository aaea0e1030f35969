/**
 * The letter counter page: one left-to-right pass over the text puts every
 * character into exactly one class (ASCII letter, digit, whitespace, one of
 * fourteen punctuation marks, anything else), counts upper- and lower-case
 * letters and tallies the letters case-insensitively.
 */
module LetterCounter {
  import opened JsString
  import opened Tally

  datatype CharClass = Letter | Digit | Space | Punctuation | Special

  /** `/[.,!?;:'"()[\]{}]/` */
  predicate IsPunctuation(c: char) {
    c in ".,!?;:'\"()[]{}"
  }

  /** The first test of the loop's `if` chain that the character passes. */
  function Classify(c: char): CharClass {
    if IsAsciiLetter(c) then Letter
    else if IsDigit(c) then Digit
    else if IsWhitespace(c) then Space
    else if IsPunctuation(c) then Punctuation
    else Special
  }

  /** The number of characters of `s` in class `k`. */
  function ClassCount(s: string, k: CharClass): nat
    decreases |s|
  {
    if s == [] then 0
    else ClassCount(s[..|s| - 1], k) + (if Classify(s[|s| - 1]) == k then 1 else 0)
  }

  lemma {:induction false} ClassCountAppend(a: string, b: string, k: CharClass)
    ensures ClassCount(a + b, k) == ClassCount(a, k) + ClassCount(b, k)
    decreases |b|
  {
    if b != [] {
      assert (a + b)[..|a + b| - 1] == a + b[..|b| - 1];
      ClassCountAppend(a, b[..|b| - 1], k);
    } else {
      assert a + b == a;
    }
  }

  /** A letter the loop counts as upper case: `char === char.toUpperCase()`. */
  predicate IsUpperLetter(c: char) {
    IsAsciiLetter(c) && c == ToUpper(c)
  }

  predicate IsLowerLetter(c: char) {
    IsAsciiLetter(c) && c != ToUpper(c)
  }

  /** The keys the loop feeds to `letterFrequency`, in order: each ASCII
      letter, lower-cased. */
  function LetterKeys(s: string): seq<char>
    decreases |s|
  {
    if s == [] then []
    else
      var c := s[|s| - 1];
      LetterKeys(s[..|s| - 1]) + (if IsAsciiLetter(c) then [ToLower(c)] else [])
  }

  datatype LetterStats = LetterStats(
    totalCharacters: nat,
    letters: nat,
    digits: nat,
    spaces: nat,
    punctuation: nat,
    specialChars: nat,
    uppercase: nat,
    lowercase: nat,
    letterFrequency: Tally<char>,
    characterTypes: map<CharClass, nat>)

  /** The state the page shows for the empty text. */
  const EmptyStats := LetterStats(0, 0, 0, 0, 0, 0, 0, 0, Tally([], map[]), map[])

  /** The five counters of the `characterTypes` object while the loop runs. */
  datatype TypeCounts = TypeCounts(letters: nat, digits: nat, spaces: nat, punctuation: nat, specialChars: nat)

  /** The `characterTypes` object with its five keys. */
  function CharacterTypes(letters: nat, digits: nat, spaces: nat, punctuation: nat, specialChars: nat): map<CharClass, nat> {
    map[Letter := letters, Digit := digits, Space := spaces,
        Punctuation := punctuation, Special := specialChars]
  }

  /** What the analysis effect stores for `text`. */
  function Report(text: string): LetterStats {
    if text == [] then EmptyStats
    else
      var letters := ClassCount(text, Letter);
      var digits := ClassCount(text, Digit);
      var spaces := ClassCount(text, Space);
      var punctuation := ClassCount(text, Punctuation);
      var specialChars := ClassCount(text, Special);
      LetterStats(|text|, letters, digits, spaces, punctuation, specialChars,
                  CountWhere(text, IsUpperLetter), CountWhere(text, IsLowerLetter),
                  TallyOf(LetterKeys(text)),
                  CharacterTypes(letters, digits, spaces, punctuation, specialChars))
  }

  /** The analysis effect: an early reset for the empty text, otherwise the
      classification loop. */
  method Analyze(text: string) returns (stats: LetterStats)
    ensures stats == Report(text)
  {
    if text == [] {
      return EmptyStats;
    }
    var letters, digits, spaces, punctuation, specialChars, uppercase, lowercase, letterFrequency, characterTypes :=
      CountCharacters(text);
    var typeMap := CharacterTypes(characterTypes.letters, characterTypes.digits, characterTypes.spaces,
                                  characterTypes.punctuation, characterTypes.specialChars);
    stats := LetterStats(|text|, letters, digits, spaces, punctuation, specialChars,
                         uppercase, lowercase, letterFrequency, typeMap);
  }

  /** The effect's `for` loop over the characters of the text. */
  method CountCharacters(text: string)
    returns (letters: nat, digits: nat, spaces: nat, punctuation: nat, specialChars: nat,
             uppercase: nat, lowercase: nat, letterFrequency: Tally<char>, characterTypes: TypeCounts)
    ensures letters == ClassCount(text, Letter)
    ensures digits == ClassCount(text, Digit)
    ensures spaces == ClassCount(text, Space)
    ensures punctuation == ClassCount(text, Punctuation)
    ensures specialChars == ClassCount(text, Special)
    ensures uppercase == CountWhere(text, IsUpperLetter)
    ensures lowercase == CountWhere(text, IsLowerLetter)
    ensures letterFrequency == TallyOf(LetterKeys(text))
    ensures characterTypes == TypeCounts(letters, digits, spaces, punctuation, specialChars)
  {
    letters, digits, spaces, punctuation, specialChars := 0, 0, 0, 0, 0;
    uppercase, lowercase := 0, 0;
    letterFrequency := Tally([], map[]);
    characterTypes := TypeCounts(0, 0, 0, 0, 0);
    for i := 0 to |text|
      invariant letters == ClassCount(text[..i], Letter)
      invariant digits == ClassCount(text[..i], Digit)
      invariant spaces == ClassCount(text[..i], Space)
      invariant punctuation == ClassCount(text[..i], Punctuation)
      invariant specialChars == ClassCount(text[..i], Special)
      invariant uppercase == CountWhere(text[..i], IsUpperLetter)
      invariant lowercase == CountWhere(text[..i], IsLowerLetter)
      invariant letterFrequency == TallyOf(LetterKeys(text[..i]))
      invariant characterTypes == TypeCounts(letters, digits, spaces, punctuation, specialChars)
    {
      var c := text[i];
      ReadPrefix(text, i);
      match Classify(c) {
        case Letter =>
          letters := letters + 1;
          characterTypes := characterTypes.(letters := characterTypes.letters + 1);
          if c == ToUpper(c) {
            uppercase := uppercase + 1;
          } else {
            lowercase := lowercase + 1;
          }
          letterFrequency := Bump(letterFrequency, ToLower(c));
        case Digit =>
          digits := digits + 1;
          characterTypes := characterTypes.(digits := characterTypes.digits + 1);
        case Space =>
          spaces := spaces + 1;
          characterTypes := characterTypes.(spaces := characterTypes.spaces + 1);
        case Punctuation =>
          punctuation := punctuation + 1;
          characterTypes := characterTypes.(punctuation := characterTypes.punctuation + 1);
        case Special =>
          specialChars := specialChars + 1;
          characterTypes := characterTypes.(specialChars := characterTypes.specialChars + 1);
      }
    }
    WholeSlice(text);
  }

  /** One more character of the text, read as `ReadStep` on the prefix. */
  lemma ReadPrefix(text: string, i: nat)
    requires i < |text|
    ensures ClassCount(text[..i + 1], Letter) == ClassCount(text[..i], Letter) + (if Classify(text[i]) == Letter then 1 else 0)
    ensures ClassCount(text[..i + 1], Digit) == ClassCount(text[..i], Digit) + (if Classify(text[i]) == Digit then 1 else 0)
    ensures ClassCount(text[..i + 1], Space) == ClassCount(text[..i], Space) + (if Classify(text[i]) == Space then 1 else 0)
    ensures ClassCount(text[..i + 1], Punctuation) == ClassCount(text[..i], Punctuation) + (if Classify(text[i]) == Punctuation then 1 else 0)
    ensures ClassCount(text[..i + 1], Special) == ClassCount(text[..i], Special) + (if Classify(text[i]) == Special then 1 else 0)
    ensures CountWhere(text[..i + 1], IsUpperLetter) == CountWhere(text[..i], IsUpperLetter) + (if IsUpperLetter(text[i]) then 1 else 0)
    ensures CountWhere(text[..i + 1], IsLowerLetter) == CountWhere(text[..i], IsLowerLetter) + (if IsLowerLetter(text[i]) then 1 else 0)
    ensures TallyOf(LetterKeys(text[..i + 1])) ==
      if IsAsciiLetter(text[i]) then Bump(TallyOf(LetterKeys(text[..i])), ToLower(text[i])) else TallyOf(LetterKeys(text[..i]))
  {
    assert text[..i + 1] == text[..i] + [text[i]];
    ReadStep(text[..i], text[i]);
  }

  /** What reading one more character does to each quantity the loop keeps. */
  lemma ReadStep(s: string, c: char)
    ensures ClassCount(s + [c], Letter) == ClassCount(s, Letter) + (if Classify(c) == Letter then 1 else 0)
    ensures ClassCount(s + [c], Digit) == ClassCount(s, Digit) + (if Classify(c) == Digit then 1 else 0)
    ensures ClassCount(s + [c], Space) == ClassCount(s, Space) + (if Classify(c) == Space then 1 else 0)
    ensures ClassCount(s + [c], Punctuation) == ClassCount(s, Punctuation) + (if Classify(c) == Punctuation then 1 else 0)
    ensures ClassCount(s + [c], Special) == ClassCount(s, Special) + (if Classify(c) == Special then 1 else 0)
    ensures CountWhere(s + [c], IsUpperLetter) == CountWhere(s, IsUpperLetter) + (if IsUpperLetter(c) then 1 else 0)
    ensures CountWhere(s + [c], IsLowerLetter) == CountWhere(s, IsLowerLetter) + (if IsLowerLetter(c) then 1 else 0)
    ensures TallyOf(LetterKeys(s + [c])) ==
      if IsAsciiLetter(c) then Bump(TallyOf(LetterKeys(s)), ToLower(c)) else TallyOf(LetterKeys(s))
  {
    assert (s + [c])[..|s|] == s;
    if IsAsciiLetter(c) {
      TallyOfSnoc(LetterKeys(s), ToLower(c));
    } else {
      assert LetterKeys(s) + [] == LetterKeys(s);
    }
  }

  lemma {:induction false} ClassCountsSum(s: string)
    ensures ClassCount(s, Letter) + ClassCount(s, Digit) + ClassCount(s, Space) +
            ClassCount(s, Punctuation) + ClassCount(s, Special) == |s|
    decreases |s|
  {
    if s != [] { ClassCountsSum(s[..|s| - 1]); }
  }

  /** Every character lands in exactly one class, so the five class counters
      add up to the length of the text. */
  lemma Partition(text: string)
    ensures var r := Report(text);
      r.letters + r.digits + r.spaces + r.punctuation + r.specialChars == r.totalCharacters == |text|
  {
    ClassCountsSum(text);
  }

  /** A single character raises exactly one class counter, chosen by the
      priority letter, digit, whitespace, punctuation, special. */
  lemma SingleCharacter(c: char)
    ensures var r := Report([c]);
      r.totalCharacters == 1 &&
      (r.letters == 1 <==> IsAsciiLetter(c)) &&
      (r.digits == 1 <==> !IsAsciiLetter(c) && IsDigit(c)) &&
      (r.spaces == 1 <==> !IsAsciiLetter(c) && !IsDigit(c) && IsWhitespace(c)) &&
      (r.punctuation == 1 <==> !IsAsciiLetter(c) && !IsDigit(c) && !IsWhitespace(c) && IsPunctuation(c)) &&
      (r.specialChars == 1 <==> !IsAsciiLetter(c) && !IsDigit(c) && !IsWhitespace(c) && !IsPunctuation(c))
  {
    assert [c][..0] == [];
    ClassCountsSum([c]);
  }

  lemma {:induction false} CaseCountsOf(s: string)
    ensures CountWhere(s, IsUpperLetter) + CountWhere(s, IsLowerLetter) == ClassCount(s, Letter)
    ensures CountWhere(s, IsUpperLetter) == CountWhere(s, IsAsciiUpper)
    ensures CountWhere(s, IsLowerLetter) == CountWhere(s, IsAsciiLower)
    decreases |s|
  {
    if s != [] { CaseCountsOf(s[..|s| - 1]); }
  }

  /** Upper and lower case split the letters; upper case is exactly `A`-`Z`
      and lower case exactly `a`-`z`. */
  lemma CaseCounts(text: string)
    ensures var r := Report(text);
      r.uppercase + r.lowercase == r.letters &&
      r.uppercase == CountWhere(text, IsAsciiUpper) &&
      r.lowercase == CountWhere(text, IsAsciiLower)
  {
    CaseCountsOf(text);
  }

  lemma {:induction false} LetterKeysLength(s: string)
    ensures |LetterKeys(s)| == ClassCount(s, Letter)
    decreases |s|
  {
    if s != [] { LetterKeysLength(s[..|s| - 1]); }
  }

  lemma {:induction false} LetterKeysLower(s: string)
    ensures forall i :: 0 <= i < |LetterKeys(s)| ==> IsAsciiLower(LetterKeys(s)[i])
    decreases |s|
  {
    if s != [] { LetterKeysLower(s[..|s| - 1]); }
  }

  /** The key one character contributes is `c` exactly when the character is
      `c` or its upper-case form. */
  lemma KeyOfCharacter(x: char, c: char)
    requires IsAsciiLower(c)
    ensures multiset(if IsAsciiLetter(x) then [ToLower(x)] else [])[c] ==
            (if x == c then 1 else 0) + (if x == ToUpper(c) then 1 else 0)
  {
  }

  lemma {:induction false} LetterKeysOccurrences(s: string, c: char)
    requires IsAsciiLower(c)
    ensures multiset(LetterKeys(s))[c] == multiset(s)[c] + multiset(s)[ToUpper(c)]
    decreases |s|
  {
    if s != [] {
      var init, last := s[..|s| - 1], s[|s| - 1];
      LetterKeysOccurrences(init, c);
      assert s == init + [last];
      var extra := if IsAsciiLetter(last) then [ToLower(last)] else [];
      calc {
        multiset(LetterKeys(s))[c];
        multiset(LetterKeys(init) + extra)[c];
        multiset(LetterKeys(init))[c] + multiset(extra)[c];
        { KeyOfCharacter(last, c); }
        multiset(init)[c] + multiset(init)[ToUpper(c)] + (if last == c then 1 else 0) + (if last == ToUpper(c) then 1 else 0);
        { assert multiset(s) == multiset(init) + multiset{last}; }
        multiset(s)[c] + multiset(s)[ToUpper(c)];
      }
    }
  }

  /** `letterFrequency` has only keys `a`-`z`; the count under a letter is the
      number of times it occurs in either case; the counts add up to the
      number of letters. */
  lemma LetterFrequency(text: string)
    ensures var r := Report(text);
      (forall k :: k in r.letterFrequency.counts ==> 'a' <= k <= 'z') &&
      (forall c :: IsAsciiLower(c) ==> CountOf(r.letterFrequency, c) == multiset(text)[c] + multiset(text)[ToUpper(c)]) &&
      Total(r.letterFrequency) == r.letters
  {
    if text != [] {
      var ks := LetterKeys(text);
      LetterKeysLength(text);
      LetterKeysLower(text);
      forall c | IsAsciiLower(c) ensures multiset(ks)[c] == multiset(text)[c] + multiset(text)[ToUpper(c)] {
        LetterKeysOccurrences(text, c);
      }
      TallyOfCounts(ks);
      TallyOfKeys(ks);
      TallyOfTotal(ks);
    }
  }

  /** For a non-empty text each `characterTypes` entry equals the matching
      counter; for the empty text every counter is zero and both tables are
      empty. */
  lemma CharacterTypesMatch(text: string)
    ensures var r := Report(text);
      text != [] ==> r.characterTypes == map[Letter := r.letters, Digit := r.digits, Space := r.spaces,
                                              Punctuation := r.punctuation, Special := r.specialChars]
    ensures text == [] ==> Report(text) == LetterStats(0, 0, 0, 0, 0, 0, 0, 0, Tally([], map[]), map[])
  {
  }

  lemma {:induction false} LetterKeysAppend(a: string, b: string)
    ensures LetterKeys(a + b) == LetterKeys(a) + LetterKeys(b)
    decreases |b|
  {
    if b == [] {
      assert a + b == a;
    } else {
      assert (a + b)[..|a + b| - 1] == a + b[..|b| - 1];
      LetterKeysAppend(a, b[..|b| - 1]);
    }
  }

  /** Classification is per character, so every counter of a concatenation
      is the sum of the counters of its parts. */
  lemma Additive(s1: string, s2: string)
    ensures var r, r1, r2 := Report(s1 + s2), Report(s1), Report(s2);
      r.totalCharacters == r1.totalCharacters + r2.totalCharacters &&
      r.letters == r1.letters + r2.letters &&
      r.digits == r1.digits + r2.digits &&
      r.spaces == r1.spaces + r2.spaces &&
      r.punctuation == r1.punctuation + r2.punctuation &&
      r.specialChars == r1.specialChars + r2.specialChars &&
      r.uppercase == r1.uppercase + r2.uppercase &&
      r.lowercase == r1.lowercase + r2.lowercase &&
      forall c :: CountOf(r.letterFrequency, c) == CountOf(r1.letterFrequency, c) + CountOf(r2.letterFrequency, c)
  {
    if s1 == [] {
      assert s1 + s2 == s2;
    } else if s2 == [] {
      assert s1 + s2 == s1;
    } else {
      ClassCountAppend(s1, s2, Letter);
      ClassCountAppend(s1, s2, Digit);
      ClassCountAppend(s1, s2, Space);
      ClassCountAppend(s1, s2, Punctuation);
      ClassCountAppend(s1, s2, Special);
      CountWhereAppend(s1, s2, IsUpperLetter);
      CountWhereAppend(s1, s2, IsLowerLetter);
      LetterKeysAppend(s1, s2);
      TallyOfAppend(LetterKeys(s1), LetterKeys(s2));
    }
  }
}
