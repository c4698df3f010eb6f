/** String helpers of the tool (`src/utils/string.util.ts`) and the ASCII
    case mapping, joining and splitting that the rest of the model uses in
    place of JavaScript's `toLowerCase`, `toUpperCase`, `join` and `split`.
    Case mapping is restricted to ASCII: every other character is left as is. */
module Strings {

  predicate IsUpperAscii(c: char) {
    'A' <= c <= 'Z'
  }

  predicate IsLowerAscii(c: char) {
    'a' <= c <= 'z'
  }

  predicate IsLetter(c: char) {
    IsUpperAscii(c) || IsLowerAscii(c)
  }

  predicate IsDigit(c: char) {
    '0' <= c <= '9'
  }

  /** The character class `[A-Za-z-]` kept in endpoint names. */
  predicate IsLetterOrDash(c: char) {
    IsLetter(c) || c == '-'
  }

  /** The character class `[a-zA-Z0-9-]` kept by `LettersNumbersWithDash`. */
  predicate IsLetterDigitOrDash(c: char) {
    IsLetter(c) || IsDigit(c) || c == '-'
  }

  function LowerChar(c: char): (r: char)
    ensures IsUpperAscii(c) ==> IsLowerAscii(r)
    ensures !IsUpperAscii(c) ==> r == c
  {
    if IsUpperAscii(c) then (c as int + 32) as char else c
  }

  function UpperChar(c: char): (r: char)
    ensures IsLowerAscii(c) ==> IsUpperAscii(r)
    ensures !IsLowerAscii(c) ==> r == c
  {
    if IsLowerAscii(c) then (c as int - 32) as char else c
  }

  /** `toLowerCase()` on ASCII text. */
  function Lower(s: string): (r: string)
    ensures |r| == |s|
    ensures forall i :: 0 <= i < |s| ==> r[i] == LowerChar(s[i])
  {
    seq(|s|, i requires 0 <= i < |s| => LowerChar(s[i]))
  }

  lemma LowerConcat(a: string, b: string)
    ensures Lower(a + b) == Lower(a) + Lower(b)
  {
    assert forall i :: 0 <= i < |a + b| ==> Lower(a + b)[i] == (Lower(a) + Lower(b))[i];
  }

  /** Lower-casing is idempotent, so a lower-cased key lower-cases to itself. */
  lemma LowerIdempotent(s: string)
    ensures Lower(Lower(s)) == Lower(s)
  {
  }

  /** Text without upper-case letters is its own lower case. */
  lemma LowerOfLower(s: string)
    requires forall i :: 0 <= i < |s| ==> !IsUpperAscii(s[i])
    ensures Lower(s) == s
  {
  }

  /** No upper-case ASCII letter survives lower-casing. */
  lemma LowerHasNoUpper(s: string)
    ensures forall i :: 0 <= i < |Lower(s)| ==> !IsUpperAscii(Lower(s)[i])
  {
  }

  /** `word.charAt(0).toUpperCase() + word.slice(1)`: only the first character
      is upper-cased, the rest is kept, and the empty word stays empty. */
  function Capitalize(word: string): (r: string)
    ensures |r| == |word|
    ensures word == [] ==> r == []
    ensures word != [] ==> r[0] == UpperChar(word[0]) && r[1..] == word[1..]
  {
    if word == [] then [] else [UpperChar(word[0])] + word[1..]
  }

  lemma CapitalizeIdempotent(word: string)
    ensures Capitalize(Capitalize(word)) == Capitalize(word)
  {
  }

  /** A word that does not start with a lower-case letter (an array index,
      for instance) is its own capitalisation. */
  lemma CapitalizeKeepsNonLower(word: string)
    requires word == [] || !IsLowerAscii(word[0])
    ensures Capitalize(word) == word
  {
  }

  /** The characters of `s` that satisfy `keep`, in their original order:
      the meaning of `s.replace(/[^class]+/g, '')`. */
  function Filter(s: string, keep: char -> bool): (r: string)
    ensures |r| <= |s|
    ensures forall i :: 0 <= i < |r| ==> keep(r[i])
  {
    if s == [] then []
    else
      var rest := Filter(s[1..], keep);
      if keep(s[0]) then [s[0]] + rest else rest
  }

  /** Each kept character occurs as often in the result as in the input,
      every other character not at all. */
  lemma {:induction false} FilterMultiset(s: string, keep: char -> bool)
    ensures forall c :: multiset(Filter(s, keep))[c] == if keep(c) then multiset(s)[c] else 0
  {
    if s != [] {
      FilterMultiset(s[1..], keep);
      assert s == [s[0]] + s[1..];
    }
  }

  /** Filtering distributes over concatenation; together with the single
      character case this pins the result down as the kept subsequence. */
  lemma {:induction false} FilterConcat(a: string, b: string, keep: char -> bool)
    ensures Filter(a + b, keep) == Filter(a, keep) + Filter(b, keep)
  {
    if a == [] {
      assert a + b == b;
    } else {
      assert (a + b)[1..] == a[1..] + b;
      FilterConcat(a[1..], b, keep);
    }
  }

  lemma FilterSingle(c: char, keep: char -> bool)
    ensures Filter([c], keep) == if keep(c) then [c] else []
  {
  }

  /** A string made only of kept characters is returned unchanged. */
  lemma {:induction false} FilterIdentity(s: string, keep: char -> bool)
    requires forall i :: 0 <= i < |s| ==> keep(s[i])
    ensures Filter(s, keep) == s
  {
    if s != [] {
      FilterIdentity(s[1..], keep);
      assert s == [s[0]] + s[1..];
    }
  }

  lemma FilterIdempotent(s: string, keep: char -> bool)
    ensures Filter(Filter(s, keep), keep) == Filter(s, keep)
  {
    FilterIdentity(Filter(s, keep), keep);
  }

  /** `LettersNumbersWithDash`: removes everything outside `[a-zA-Z0-9-]`. */
  function LettersNumbersWithDash(word: string): (r: string)
    ensures forall i :: 0 <= i < |r| ==> IsLetterDigitOrDash(r[i])
    ensures forall c :: multiset(r)[c] == if IsLetterDigitOrDash(c) then multiset(word)[c] else 0
  {
    FilterMultiset(word, IsLetterDigitOrDash);
    Filter(word, IsLetterDigitOrDash)
  }

  /** `LettersOnlyWithDash`: removes everything outside `[A-Za-z-]`. */
  function LettersOnlyWithDash(word: string): (r: string)
    ensures forall i :: 0 <= i < |r| ==> IsLetterOrDash(r[i])
    ensures forall c :: multiset(r)[c] == if IsLetterOrDash(c) then multiset(word)[c] else 0
  {
    FilterMultiset(word, IsLetterOrDash);
    Filter(word, IsLetterOrDash)
  }

  lemma LettersNumbersWithDashIdempotent(word: string)
    ensures LettersNumbersWithDash(LettersNumbersWithDash(word)) == LettersNumbersWithDash(word)
    ensures (forall i :: 0 <= i < |word| ==> IsLetterDigitOrDash(word[i])) ==> LettersNumbersWithDash(word) == word
  {
    FilterIdempotent(word, IsLetterDigitOrDash);
    if forall i :: 0 <= i < |word| ==> IsLetterDigitOrDash(word[i]) {
      FilterIdentity(word, IsLetterDigitOrDash);
    }
  }

  lemma LettersOnlyWithDashIdempotent(word: string)
    ensures LettersOnlyWithDash(LettersOnlyWithDash(word)) == LettersOnlyWithDash(word)
    ensures (forall i :: 0 <= i < |word| ==> IsLetterOrDash(word[i])) ==> LettersOnlyWithDash(word) == word
  {
    FilterIdempotent(word, IsLetterOrDash);
    if forall i :: 0 <= i < |word| ==> IsLetterOrDash(word[i]) {
      FilterIdentity(word, IsLetterOrDash);
    }
  }

  /** A string with no kept character filters to nothing. */
  lemma {:induction false} FilterNone(s: string, keep: char -> bool)
    requires forall i :: 0 <= i < |s| ==> !keep(s[i])
    ensures Filter(s, keep) == []
  {
    if s != [] {
      FilterNone(s[1..], keep);
    }
  }

  /** Filters three runs: dropped, kept, dropped. */
  lemma FilterRuns(a: string, b: string, c: string, keep: char -> bool)
    requires forall i :: 0 <= i < |a| ==> !keep(a[i])
    requires forall i :: 0 <= i < |b| ==> keep(b[i])
    requires forall i :: 0 <= i < |c| ==> !keep(c[i])
    ensures Filter(a + b + c, keep) == b
  {
    FilterConcat(a + b, c, keep);
    FilterConcat(a, b, keep);
    FilterNone(a, keep);
    FilterIdentity(b, keep);
    FilterNone(c, keep);
  }

  lemma CapitalizeExamples()
    ensures Capitalize("word") == "Word" && Capitalize("word") != "word"
    ensures Capitalize("word demo") == "Word demo" && Capitalize("word demo") != "word Demo"
  {
  }

  /** Lower-casing and keeping `[A-Za-z-]` commute, since lower-casing maps
      letters to letters and leaves every other character alone. */
  lemma {:induction false} LettersOnlyWithDashLower(s: string)
    ensures LettersOnlyWithDash(Lower(s)) == Lower(LettersOnlyWithDash(s))
  {
    if s != [] {
      var c := s[0];
      var head := if IsLetterOrDash(c) then [c] else [];
      assert IsLetterOrDash(LowerChar(c)) == IsLetterOrDash(c);
      assert Lower(s)[1..] == Lower(s[1..]);
      assert Filter(Lower(s), IsLetterOrDash) == Lower(head) + Filter(Lower(s[1..]), IsLetterOrDash);
      assert Filter(s, IsLetterOrDash) == head + Filter(s[1..], IsLetterOrDash);
      LettersOnlyWithDashLower(s[1..]);
      LowerConcat(head, Filter(s[1..], IsLetterOrDash));
    }
  }

  /** `parts.join(sep)`. */
  function Join(parts: seq<string>, sep: string): (r: string)
    ensures |parts| == 1 ==> r == parts[0]
  {
    if parts == [] then []
    else if |parts| == 1 then parts[0]
    else parts[0] + sep + Join(parts[1..], sep)
  }

  /** `s.split(sep)` for a one-character separator: the pieces between
      separators, so a string without `sep` splits into itself. */
  function Split(s: string, sep: char): (r: seq<string>)
    ensures |r| >= 1
    ensures forall i :: 0 <= i < |r| ==> sep !in r[i]
    decreases |s|
  {
    if sep !in s then [s]
    else
      var k := IndexOf(s, sep);
      [s[..k]] + Split(s[k + 1..], sep)
  }

  /** Position of the first occurrence of `c` in `s`. */
  function IndexOf(s: string, c: char): (k: nat)
    requires c in s
    ensures k < |s| && s[k] == c && c !in s[..k]
  {
    if s[0] == c then 0 else
      assert s == [s[0]] + s[1..];
      1 + IndexOf(s[1..], c)
  }

  lemma {:induction false} IndexOfAfter(a: string, c: char, b: string)
    requires c !in a
    ensures c in a + [c] + b && IndexOf(a + [c] + b, c) == |a|
  {
    var s := a + [c] + b;
    assert s[|a|] == c;
    if a != [] {
      assert s[1..] == a[1..] + [c] + b;
      IndexOfAfter(a[1..], c, b);
    }
  }

  /** Splitting text that starts with a separator-free piece and a
      separator yields that piece first. */
  lemma SplitStep(a: string, sep: char, rest: string)
    requires sep !in a
    ensures Split(a + [sep] + rest, sep) == [a] + Split(rest, sep)
  {
    var s := a + [sep] + rest;
    IndexOfAfter(a, sep, rest);
    assert s[..|a|] == a;
    assert s[|a| + 1..] == rest;
  }

  /** Splitting undoes joining when no piece contains the separator. */
  lemma {:induction false} SplitJoin(parts: seq<string>, sep: char)
    requires |parts| >= 1
    requires forall i :: 0 <= i < |parts| ==> sep !in parts[i]
    ensures Split(Join(parts, [sep]), sep) == parts
  {
    if |parts| > 1 {
      var tail := Join(parts[1..], [sep]);
      assert Join(parts, [sep]) == parts[0] + [sep] + tail;
      SplitStep(parts[0], sep, tail);
      assert forall i :: 0 <= i < |parts[1..]| ==> sep !in parts[1..][i];
      SplitJoin(parts[1..], sep);
      assert parts == [parts[0]] + parts[1..];
    }
  }

  /** Decimal rendering of an array index, as `Object.keys` yields it. */
  function DecimalString(n: nat): (r: string)
    ensures |r| >= 1
    ensures forall i :: 0 <= i < |r| ==> IsDigit(r[i])
    ensures r[0] == '0' ==> n == 0
  {
    if n < 10 then [('0' as int + n) as char]
    else DecimalString(n / 10) + [('0' as int + n % 10) as char]
  }
}
