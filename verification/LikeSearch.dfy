/** Log search: LIKE patterns, the escaping of search terms, and what they select. */
module LikeSearch {
  import opened Basics

  predicate Wildcard(c: char) {
    c == '\\' || c == '%' || c == '_'
  }

  /** `escapeLikePattern`: a backslash before every wildcard character. */
  function Escaped(s: string): string {
    if s == [] then []
    else (if Wildcard(s[0]) then ['\\', s[0]] else [s[0]]) + Escaped(s[1..])
  }

  /**
   * The LIKE matcher: `%` is any run of characters, `_` any one character, and a
   * backslash before a wildcard character makes it stand for itself.
   */
  predicate Like(pattern: string, text: string)
    decreases |pattern| + |text|
  {
    if pattern == [] then text == []
    else if pattern[0] == '%' then
      Like(pattern[1..], text) || (text != [] && Like(pattern, text[1..]))
    else if pattern[0] == '_' then text != [] && Like(pattern[1..], text[1..])
    else if pattern[0] == '\\' && |pattern| > 1 && Wildcard(pattern[1]) then
      text != [] && text[0] == pattern[1] && Like(pattern[2..], text[1..])
    else text != [] && text[0] == pattern[0] && Like(pattern[1..], text[1..])
  }

  predicate OccursAt(text: string, term: string, k: nat) {
    k + |term| <= |text| && text[k..k + |term|] == term
  }

  predicate Contains(text: string, term: string) {
    exists k :: 0 <= k <= |text| && OccursAt(text, term, k)
  }

  lemma EscapedCharacter(c: char, rest: string, more: string, text: string)
    ensures Like(Escaped([c] + rest) + more, text)
       <==> text != [] && text[0] == c && Like(Escaped(rest) + more, text[1..])
  {
    var pattern, tail := Escaped([c] + rest) + more, Escaped(rest) + more;
    assert ([c] + rest)[1..] == rest;
    if Wildcard(c) {
      assert pattern[0] == '\\' && pattern[1] == c && pattern[2..] == tail;
    } else {
      assert pattern[0] == c && pattern[1..] == tail;
    }
  }

  /** An escaped term at the front of a pattern matches itself and nothing else. */
  lemma {:induction false} EscapedMatchesItself(term: string, more: string, text: string)
    ensures Like(Escaped(term) + more, text)
       <==> |term| <= |text| && text[..|term|] == term && Like(more, text[|term|..])
  {
    if term == [] {
      assert Escaped(term) + more == more;
      assert text[|term|..] == text;
    } else {
      hide Like, Escaped;
      var c, rest := term[0], term[1..];
      assert term == [c] + rest;
      EscapedCharacter(c, rest, more, text);
      if text != [] {
        EscapedMatchesItself(rest, more, text[1..]);
        if |term| <= |text| {
          assert text[..|term|] == [text[0]] + text[1..][..|rest|];
          assert text[1..][|rest|..] == text[|term|..];
        }
      }
    }
  }

  lemma {:induction false} PercentMatchesAll(text: string)
    ensures Like("%", text)
  {
    if text != [] {
      PercentMatchesAll(text[1..]);
    } else {
      assert "%"[1..] == [];
    }
  }

  /** A leading `%` lets the rest of the pattern match at any position. */
  lemma {:induction false} LeadingPercent(more: string, text: string)
    ensures Like(['%'] + more, text) <==> exists k :: 0 <= k <= |text| && Like(more, text[k..])
  {
    var pattern := ['%'] + more;
    assert pattern[1..] == more;
    if text == [] {
      assert text[0..] == text;
    } else {
      LeadingPercent(more, text[1..]);
      if Like(pattern, text[1..]) {
        var k :| 0 <= k <= |text[1..]| && Like(more, text[1..][k..]);
        assert text[1..][k..] == text[k + 1..];
      }
      if exists k :: 0 <= k <= |text| && Like(more, text[k..]) {
        var k :| 0 <= k <= |text| && Like(more, text[k..]);
        if k == 0 {
          assert text[0..] == text;
        } else {
          assert text[1..][k - 1..] == text[k..];
        }
      }
      assert text[0..] == text;
    }
  }

  /** `%term%`, escaped, matches exactly the texts that contain the term. */
  lemma EscapedPatternMeansContains(term: string, text: string)
    ensures Like(['%'] + (Escaped(term) + ['%']), text) <==> Contains(text, term)
  {
    hide Like, Escaped;
    var inner := Escaped(term) + ['%'];
    LeadingPercent(inner, text);
    forall k | 0 <= k <= |text|
      ensures Like(inner, text[k..]) <==> OccursAt(text, term, k)
    {
      EscapedMatchesItself(term, ['%'], text[k..]);
      if k + |term| <= |text| {
        PercentMatchesAll(text[k..][|term|..]);
        assert text[k..][..|term|] == text[k..k + |term|];
      }
    }
  }

  /** Whether `searchLogs` selects a message; an empty or absent term adds no condition. */
  predicate Selected(lower: string -> string, search: Option<string>, message: string) {
    match search
    case None => true
    case Some(term) => term == [] || Like(['%'] + (Escaped(lower(term)) + ['%']), lower(message))
  }

  /** The search is a case-folded substring test, whatever characters the term holds. */
  lemma SearchIsSubstring(lower: string -> string, search: string, message: string)
    requires lower([]) == []
    ensures Selected(lower, Some(search), message) <==> Contains(lower(message), lower(search))
    ensures Selected(lower, None, message)
  {
    hide Like, Escaped;
    EscapedPatternMeansContains(lower(search), lower(message));
    if search == [] {
      assert OccursAt(lower(message), [], 0);
    }
  }

  /** Without the escape a term such as `_` selects messages that do not contain it. */
  lemma UnescapedSelectsMore()
    ensures Like("%_%", "a") && !Contains("a", "_")
  {
    PercentMatchesAll([]);
    assert "a"[1..] == [];
    assert "%_%"[1..] == "_%" && "_%"[1..] == "%";
    assert Like("_%", "a");
    forall k | 0 <= k <= 1
      ensures !OccursAt("a", "_", k)
    {
      if k == 0 {
        assert "a"[0..1][0] == 'a';
      }
    }
  }
}
