/**
 * The generator of temporary passwords against the password policy. The random draws
 * are inputs, so what is proved holds of every outcome of the random source.
 */
module TemporaryPassword {
  import opened Basics
  import opened Text

  const LOWER := "abcdefghijkmnopqrstuvwxyz"
  const UPPER := "ABCDEFGHJKLMNPQRSTUVWXYZ"
  const DIGITS := "23456789"
  const SYMBOLS := "!@#$%^&*?"
  const ALPHABET := LOWER + UPPER + DIGITS + SYMBOLS

  // ----- The policy -----

  predicate IsLower(c: char) { 'a' <= c <= 'z' }

  predicate IsUpper(c: char) { 'A' <= c <= 'Z' }

  predicate IsDigit(c: char) { '0' <= c <= '9' }

  predicate IsSymbol(c: char) {
    !IsLower(c) && !IsUpper(c) && !IsDigit(c) && !IsSpace(c)
  }

  predicate HasOne(p: char -> bool, password: string) {
    exists c :: c in password && p(c)
  }

  /** `passwordPolicyError` finds nothing to object to. */
  predicate MeetsPolicy(password: string) {
    && 12 <= |password| <= 128
    && HasOne(IsLower, password) && HasOne(IsUpper, password)
    && HasOne(IsDigit, password) && HasOne(IsSymbol, password)
  }

  /** Some place of the text holds a character that is neither letter nor digit nor white space. */
  predicate HasMark(s: string) {
    exists i :: 0 <= i < |s| && !('a' <= s[i] <= 'z') && !('A' <= s[i] <= 'Z') && !('0' <= s[i] <= '9')
                && !IsSpace(s[i])
  }

  /** Exactly which passwords meet the policy. */
  lemma PolicyMeaning(s: string)
    ensures MeetsPolicy(s)
       <==> && 12 <= |s| <= 128
            && (exists i :: 0 <= i < |s| && 'a' <= s[i] <= 'z') && (exists i :: 0 <= i < |s| && 'A' <= s[i] <= 'Z')
            && (exists i :: 0 <= i < |s| && '0' <= s[i] <= '9') && HasMark(s)
  {
    OneSomewhere(IsLower, s);
    OneSomewhere(IsUpper, s);
    OneSomewhere(IsDigit, s);
    OneSomewhere(IsSymbol, s);
    hide HasOne;
  }

  lemma OneSomewhere(p: char -> bool, s: string)
    ensures HasOne(p, s) <==> exists i :: 0 <= i < |s| && p(s[i])
  {
    if HasOne(p, s) {
      var c :| c in s && p(c);
      var i :| 0 <= i < |s| && s[i] == c;
    }
  }

  // ----- Drawing -----

  /** The characters the k-th place is drawn from: one place for each class, then all. */
  function Source(k: nat): string {
    if k == 0 then LOWER else if k == 1 then UPPER else if k == 2 then DIGITS else if k == 3 then SYMBOLS else ALPHABET
  }

  predicate ValidPicks(picks: seq<nat>) {
    forall k :: 0 <= k < |picks| ==> picks[k] < |Source(k)|
  }

  function Drawn(picks: seq<nat>): (r: string)
    requires ValidPicks(picks)
    ensures |r| == |picks|
  {
    seq(|picks|, k requires 0 <= k < |picks| => Source(k)[picks[k]])
  }

  // ----- Shuffling -----

  function Swapped<T>(s: seq<T>, i: nat, j: nat): (r: seq<T>)
    requires i < |s| && j < |s|
    ensures |r| == |s|
  {
    s[i := s[j]][j := s[i]]
  }

  /** The k-th swap of n items picks a place at or below n - 1 - k. */
  predicate ValidSwaps(n: nat, swaps: seq<nat>) {
    && |swaps| == (if n == 0 then 0 else n - 1)
    && forall k :: 0 <= k < |swaps| ==> swaps[k] <= n - 1 - k
  }

  /** Fisher-Yates from the last place down, one choice for each place. */
  function Shuffled<T>(s: seq<T>, swaps: seq<nat>): (r: seq<T>)
    requires ValidSwaps(|s|, swaps)
    ensures |r| == |s|
    decreases |s|
  {
    if |s| <= 1 then s
    else
      var i := |s| - 1;
      var t := Swapped(s, i, swaps[0]);
      Shuffled(t[..i], swaps[1..]) + [t[i]]
  }

  predicate ValidDraws(length: nat, picks: seq<nat>, swaps: seq<nat>) {
    |picks| == length && ValidPicks(picks) && ValidSwaps(length, swaps)
  }

  method GenerateTemporaryPassword(length: nat, picks: seq<nat>, swaps: seq<nat>) returns (r: Result<string>)
    requires length >= 12 ==> ValidDraws(length, picks, swaps)
    ensures r.Err? <==> length < 12
    ensures r.Ok? ==> r.value == Shuffled(Drawn(picks), swaps)
  {
    if length < 12 {
      return Err("Temporary passwords must be at least 12 characters");
    }
    var characters := DrawCharacters(length, picks);
    ShuffleInPlace(characters, swaps);
    r := Ok(characters[..]);
  }

  lemma SourceIs(k: nat)
    ensures Source(0) == LOWER && Source(1) == UPPER && Source(2) == DIGITS && Source(3) == SYMBOLS
    ensures k >= 4 ==> Source(k) == ALPHABET
  {
  }

  /** The first part of the generator: one character of each class, then any. */
  method DrawCharacters(length: nat, picks: seq<nat>) returns (characters: array<char>)
    requires 4 <= length == |picks| && ValidPicks(picks)
    ensures fresh(characters) && characters[..] == Drawn(picks)
  {
    hide Source, LOWER, UPPER, DIGITS, SYMBOLS, ALPHABET;
    characters := new char[length](_ => 'a');
    SourceIs(4);
    characters[0], characters[1] := LOWER[picks[0]], UPPER[picks[1]];
    characters[2], characters[3] := DIGITS[picks[2]], SYMBOLS[picks[3]];
    var filled := 4;
    while filled < length
      invariant 4 <= filled <= length
      invariant forall k :: 0 <= k < filled ==> characters[k] == Source(k)[picks[k]]
    {
      SourceIs(filled);
      characters[filled] := ALPHABET[picks[filled]];
      filled := filled + 1;
    }
    assert |characters[..]| == |Drawn(picks)|;
  }

  /** The places above the index are settled; shuffling the rest gives the whole result. */
  ghost predicate SettledAbove<T>(result: seq<T>, current: seq<T>, swaps: seq<nat>, index: nat)
    requires index < |current| && |swaps| == |current| - 1
  {
    var rest := swaps[|current| - 1 - index..];
    ValidSwaps(index + 1, rest) && result == Shuffled(current[..index + 1], rest) + current[index + 1..]
  }

  /** One pass of the loop: the last open place is settled by its swap. */
  lemma ShuffleStep<T>(result: seq<T>, before: seq<T>, after: seq<T>, swaps: seq<nat>, index: nat)
    requires 0 < index < |before| && |swaps| == |before| - 1 && swaps[|before| - 1 - index] < |before|
    requires SettledAbove(result, before, swaps, index)
    requires after == Swapped(before, index, swaps[|before| - 1 - index])
    ensures SettledAbove(result, after, swaps, index - 1)
  {
    var s, rest := before[..index + 1], swaps[|before| - 1 - index..];
    SwappedFront(before, index, rest[0]);
    ShuffledStep(s, rest);
    assert rest[1..] == swaps[|before| - index..];
    hide Swapped, Shuffled;
    assert result == Shuffled(after[..index], rest[1..]) + ([after[index]] + before[index + 1..]);
    assert after[index..] == [after[index]] + after[index + 1..];
  }

  lemma SwappedFront<T>(s: seq<T>, i: nat, j: nat)
    requires j <= i < |s|
    ensures var t, r := Swapped(s[..i + 1], i, j), Swapped(s, i, j);
            t[..i] == r[..i] && t[i] == r[i] && r[i + 1..] == s[i + 1..]
  {
  }

  lemma ShuffledStep<T>(s: seq<T>, swaps: seq<nat>)
    requires |s| > 1 && ValidSwaps(|s|, swaps)
    ensures var t := Swapped(s, |s| - 1, swaps[0]);
            ValidSwaps(|s| - 1, swaps[1..])
            && Shuffled(s, swaps) == Shuffled(t[..|s| - 1], swaps[1..]) + [t[|s| - 1]]
  {
  }

  lemma ShuffleStarts<T>(s: seq<T>, swaps: seq<nat>)
    requires ValidSwaps(|s|, swaps) && s != []
    ensures SettledAbove(Shuffled(s, swaps), s, swaps, |s| - 1)
    ensures |swaps| == |s| - 1
  {
    assert s[..|s|] == s && swaps[0..] == swaps;
  }

  lemma ShuffledNothing<T>(s: seq<T>, swaps: seq<nat>)
    requires ValidSwaps(|s|, swaps) && s == []
    ensures Shuffled(s, swaps) == s
  {
  }

  lemma SwapInRange(n: nat, swaps: seq<nat>, k: nat)
    requires ValidSwaps(n, swaps) && k + 1 < n
    ensures k < |swaps| && swaps[k] <= n - 1 - k
  {
  }

  lemma ShuffleEnds<T>(result: seq<T>, s: seq<T>, swaps: seq<nat>)
    requires s != [] && |swaps| == |s| - 1 && SettledAbove(result, s, swaps, 0)
    ensures result == s
  {
    assert s[..1] + s[1..] == s;
  }

  method ShuffleInPlace<T>(a: array<T>, swaps: seq<nat>)
    requires ValidSwaps(a.Length, swaps)
    modifies a
    ensures a[..] == Shuffled(old(a[..]), swaps)
  {
    hide *;
    if a.Length == 0 {
      ShuffledNothing(a[..], swaps);
      return;
    }
    ghost var current := a[..];
    ghost var result := Shuffled(current, swaps);
    ShuffleStarts(current, swaps);
    var index := a.Length - 1;
    while index > 0
      invariant 0 <= index < a.Length == |current|
      invariant a[..] == current && SettledAbove(result, current, swaps, index)
    {
      SwapInRange(a.Length, swaps, a.Length - 1 - index);
      var swap := swaps[a.Length - 1 - index];
      Swap(a, index, swap);
      ghost var after := Swapped(current, index, swap);
      ShuffleStep(result, current, after, swaps, index);
      current := after;
      index := index - 1;
    }
    ShuffleEnds(result, current, swaps);
  }

  /** The exchange of two places. */
  method Swap<T>(a: array<T>, i: nat, j: nat)
    requires i < a.Length && j < a.Length
    modifies a
    ensures a[..] == Swapped(old(a[..]), i, j)
  {
    a[i], a[j] := a[j], a[i];
  }

  // ----- The shuffle -----

  lemma SwapPermutes<T>(s: seq<T>, i: nat, j: nat)
    requires i < |s| && j < |s|
    ensures multiset(Swapped(s, i, j)) == multiset(s)
  {
  }

  /** The shuffle only moves items around. */
  lemma {:induction false} ShufflePermutes<T>(s: seq<T>, swaps: seq<nat>)
    requires ValidSwaps(|s|, swaps)
    ensures multiset(Shuffled(s, swaps)) == multiset(s)
    decreases |s|
  {
    if |s| > 1 {
      var i := |s| - 1;
      var t := Swapped(s, i, swaps[0]);
      SwapPermutes(s, i, swaps[0]);
      ShufflePermutes(t[..i], swaps[1..]);
      assert t == t[..i] + [t[i]];
    }
  }

  predicate Distinct<T(==)>(s: seq<T>) {
    forall i, j :: 0 <= i < j < |s| ==> s[i] != s[j]
  }

  lemma SwapKeepsDistinct<T>(s: seq<T>, i: nat, j: nat)
    requires i < |s| && j < |s| && Distinct(s)
    ensures Distinct(Swapped(s, i, j)) && Distinct(Swapped(s, i, j)[..i])
  {
  }

  /** Different choices put distinct items in different orders. */
  lemma {:induction false} ChoicesDiffer<T>(s: seq<T>, a: seq<nat>, b: seq<nat>)
    requires Distinct(s) && ValidSwaps(|s|, a) && ValidSwaps(|s|, b)
    requires Shuffled(s, a) == Shuffled(s, b)
    ensures a == b
    decreases |s|
  {
    if |s| > 1 {
      var i := |s| - 1;
      var t, u := Swapped(s, i, a[0]), Swapped(s, i, b[0]);
      assert Shuffled(s, a)[i] == s[a[0]] && Shuffled(s, b)[i] == s[b[0]];
      assert a[0] == b[0];
      SwapKeepsDistinct(s, i, a[0]);
      assert Shuffled(t[..i], a[1..]) == Shuffled(s, a)[..i] == Shuffled(s, b)[..i] == Shuffled(t[..i], b[1..]);
      ChoicesDiffer(t[..i], a[1..], b[1..]);
      assert a == [a[0]] + a[1..] && b == [b[0]] + b[1..];
    }
  }

  lemma ShuffledUnfolds<T>(s: seq<T>, j: nat, rest: seq<nat>)
    requires |s| > 1 && j < |s| && ValidSwaps(|s| - 1, rest)
    ensures ValidSwaps(|s|, [j] + rest)
    ensures Shuffled(s, [j] + rest) == Shuffled(Swapped(s, |s| - 1, j)[..|s| - 1], rest) + [s[j]]
  {
    var swaps := [j] + rest;
    assert swaps[1..] == rest && forall k :: 0 < k < |swaps| ==> swaps[k] == rest[k - 1];
  }

  lemma SameInit<T>(s: seq<T>, t: seq<T>)
    requires multiset(s) == multiset(t) && s != [] && t != [] && s[|s| - 1] == t[|t| - 1]
    ensures multiset(s[..|s| - 1]) == multiset(t[..|t| - 1])
  {
    assert s == s[..|s| - 1] + [s[|s| - 1]] && t == t[..|t| - 1] + [t[|t| - 1]];
    assert multiset(s[..|s| - 1]) == multiset(s) - multiset{s[|s| - 1]};
    assert multiset(t[..|t| - 1]) == multiset(t) - multiset{t[|t| - 1]};
  }

  lemma MovedLast<T>(s: seq<T>, j: nat)
    requires j < |s|
    ensures Swapped(s, |s| - 1, j)[|s| - 1] == s[j]
  {
  }

  lemma NothingToChoose<T>(s: seq<T>, t: seq<T>)
    requires |s| == |t| <= 1 && multiset(t) == multiset(s)
    ensures ValidSwaps(|s|, []) && Shuffled(s, []) == t
  {
    if |s| == 1 {
      assert t[0] in multiset(s);
    }
  }

  lemma PlaceOf<T>(s: seq<T>, t: seq<T>, i: nat) returns (j: nat)
    requires multiset(t) == multiset(s) && i < |t|
    ensures j < |s| && s[j] == t[i]
  {
    assert t[i] in multiset(s);
    j :| 0 <= j < |s| && s[j] == t[i];
  }

  /** Every order of the items is reached by some choices. */
  lemma {:induction false} EveryOrderIsReached<T>(s: seq<T>, t: seq<T>) returns (swaps: seq<nat>)
    requires multiset(t) == multiset(s)
    ensures ValidSwaps(|s|, swaps) && Shuffled(s, swaps) == t
    decreases |s|
  {
    hide *;
    SameSize(s, t);
    if |s| <= 1 {
      swaps := [];
      NothingToChoose(s, t);
    } else {
      var i := |s| - 1;
      var j := PlaceOf(s, t, i);
      SwapPermutes(s, i, j);
      MovedLast(s, j);
      var u := Swapped(s, i, j);
      SameInit(u, t);
      var rest := EveryOrderIsReached(u[..i], t[..i]);
      ShuffledUnfolds(s, j, rest);
      assert t == t[..i] + [t[i]];
      swaps := [j] + rest;
    }
  }

  lemma SameSize<T>(s: seq<T>, t: seq<T>)
    requires multiset(t) == multiset(s)
    ensures |t| == |s|
  {
    assert |multiset(t)| == |t| && |multiset(s)| == |s|;
  }

  /**
   * Choices and orders correspond one to one: for distinct items every order comes from
   * exactly one sequence of choices, so uniform choices give a uniform shuffle.
   */
  lemma ChoicesAreOrders<T>(s: seq<T>, t: seq<T>) returns (swaps: seq<nat>)
    requires Distinct(s) && multiset(t) == multiset(s)
    ensures ValidSwaps(|s|, swaps) && Shuffled(s, swaps) == t
    ensures forall other :: ValidSwaps(|s|, other) && Shuffled(s, other) == t ==> other == swaps
  {
    swaps := EveryOrderIsReached(s, t);
    forall other | ValidSwaps(|s|, other) && Shuffled(s, other) == t
      ensures other == swaps
    {
      ChoicesDiffer(s, swaps, other);
    }
  }

  // ----- The password -----

  lemma LowerAreLower(k: nat)
    ensures k < |LOWER| ==> IsLower(LOWER[k]) && LOWER[k] != 'l'
  {
  }

  lemma UpperAreUpper(k: nat)
    ensures k < |UPPER| ==> IsUpper(UPPER[k]) && UPPER[k] != 'I' && UPPER[k] != 'O'
  {
  }

  lemma DigitsAreDigits(k: nat)
    ensures k < |DIGITS| ==> IsDigit(DIGITS[k]) && DIGITS[k] != '0' && DIGITS[k] != '1'
  {
  }

  lemma SymbolsAreSymbols(k: nat)
    ensures k < |SYMBOLS| ==> IsSymbol(SYMBOLS[k])
  {
  }

  predicate Ambiguous(c: char) {
    c == 'l' || c == 'I' || c == '1' || c == 'O' || c == '0'
  }

  lemma AlphabetIsPlain(k: nat)
    ensures k < |ALPHABET| ==> !Ambiguous(ALPHABET[k]) && !IsSpace(ALPHABET[k])
  {
    hide LOWER, UPPER, DIGITS, SYMBOLS;
    var a, b, c := |LOWER|, |LOWER| + |UPPER|, |LOWER| + |UPPER| + |DIGITS|;
    if k < a {
      LowerAreLower(k);
    } else if k < b {
      UpperAreUpper(k - a);
    } else if k < c {
      DigitsAreDigits(k - b);
    } else {
      SymbolsAreSymbols(k - c);
    }
  }

  lemma HasOneMoves(p: char -> bool, a: string, b: string)
    requires multiset(a) == multiset(b) && HasOne(p, a)
    ensures HasOne(p, b)
  {
    var c :| c in a && p(c);
    assert c in multiset(b);
  }

  lemma DrawnHasClasses(picks: seq<nat>)
    requires ValidPicks(picks) && |picks| >= 4
    ensures var d := Drawn(picks); HasOne(IsLower, d) && HasOne(IsUpper, d) && HasOne(IsDigit, d) && HasOne(IsSymbol, d)
  {
    hide LOWER, UPPER, DIGITS, SYMBOLS, ALPHABET, IsLower, IsUpper, IsDigit, IsSymbol, Source;
    SourceIs(4);
    var d := Drawn(picks);
    LowerAreLower(picks[0]);
    UpperAreUpper(picks[1]);
    DigitsAreDigits(picks[2]);
    SymbolsAreSymbols(picks[3]);
    assert d[0] in d && d[1] in d && d[2] in d && d[3] in d;
  }

  /**
   * Whatever is drawn, the generated password meets the policy exactly when it was asked
   * for with 12 to 128 characters; a longer one is generated but would be refused.
   */
  lemma GeneratedMeetsPolicy(length: nat, picks: seq<nat>, swaps: seq<nat>)
    requires length >= 12 && ValidDraws(length, picks, swaps)
    ensures MeetsPolicy(Shuffled(Drawn(picks), swaps)) <==> length <= 128
  {
    hide Shuffled, Drawn, IsLower, IsUpper, IsDigit, IsSymbol, HasOne, ValidPicks;
    var drawn := Drawn(picks);
    var password := Shuffled(drawn, swaps);
    ShufflePermutes(drawn, swaps);
    DrawnHasClasses(picks);
    HasOneMoves(IsLower, drawn, password);
    HasOneMoves(IsUpper, drawn, password);
    HasOneMoves(IsDigit, drawn, password);
    HasOneMoves(IsSymbol, drawn, password);
  }

  lemma DrawnIsPlain(k: nat, pick: nat)
    requires pick < |Source(k)|
    ensures !Ambiguous(Source(k)[pick]) && !IsSpace(Source(k)[pick])
  {
    hide LOWER, UPPER, DIGITS, SYMBOLS, ALPHABET;
    LowerAreLower(pick);
    UpperAreUpper(pick);
    DigitsAreDigits(pick);
    SymbolsAreSymbols(pick);
    AlphabetIsPlain(pick);
  }

  /** No generated password holds a character that can be mistaken for another. */
  lemma GeneratedIsReadable(length: nat, picks: seq<nat>, swaps: seq<nat>, c: char)
    requires ValidDraws(length, picks, swaps)
    ensures c in Shuffled(Drawn(picks), swaps) ==> !Ambiguous(c) && !IsSpace(c)
  {
    hide Shuffled, Source, Ambiguous, IsSpace;
    var drawn := Drawn(picks);
    ShufflePermutes(drawn, swaps);
    if c in Shuffled(drawn, swaps) {
      assert c in multiset(drawn);
      var k :| 0 <= k < |drawn| && drawn[k] == c;
      DrawnIsPlain(k, picks[k]);
    }
  }
}
