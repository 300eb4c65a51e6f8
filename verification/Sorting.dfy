/** A stable sort, standing for `Array.prototype.sort` with a comparator. */
module Sorting {

  ghost predicate TotalPreorder<T(!new)>(le: (T, T) -> bool) {
    && (forall x, y :: le(x, y) || le(y, x))
    && (forall x, y, z :: le(x, y) && le(y, z) ==> le(x, z))
  }

  ghost predicate Ordered<T>(le: (T, T) -> bool, s: seq<T>) {
    forall i, j :: 0 <= i < j < |s| ==> le(s[i], s[j])
  }

  /** Places x before every element it may precede, so equal elements keep their order. */
  function Insert<T>(le: (T, T) -> bool, x: T, s: seq<T>): (r: seq<T>)
    ensures |r| == |s| + 1
  {
    if s == [] || le(x, s[0]) then [x] + s else [s[0]] + Insert(le, x, s[1..])
  }

  function SortBy<T>(le: (T, T) -> bool, s: seq<T>): (r: seq<T>)
    ensures |r| == |s|
  {
    if s == [] then [] else Insert(le, s[0], SortBy(le, s[1..]))
  }

  lemma {:induction false} InsertPermutes<T>(le: (T, T) -> bool, x: T, s: seq<T>)
    ensures multiset(Insert(le, x, s)) == multiset{x} + multiset(s)
  {
    if s != [] && !le(x, s[0]) {
      InsertPermutes(le, x, s[1..]);
      assert s == [s[0]] + s[1..];
    }
  }

  lemma {:induction false} SortPermutes<T>(le: (T, T) -> bool, s: seq<T>)
    ensures multiset(SortBy(le, s)) == multiset(s)
  {
    if s != [] {
      SortPermutes(le, s[1..]);
      InsertPermutes(le, s[0], SortBy(le, s[1..]));
      assert s == [s[0]] + s[1..];
    }
  }

  lemma {:induction false} InsertOrdered<T(!new)>(le: (T, T) -> bool, x: T, s: seq<T>)
    requires TotalPreorder(le) && Ordered(le, s)
    ensures Ordered(le, Insert(le, x, s))
  {
    if s != [] && !le(x, s[0]) {
      var rest := Insert(le, x, s[1..]);
      InsertOrdered(le, x, s[1..]);
      InsertPermutes(le, x, s[1..]);
      forall j | 0 <= j < |rest|
        ensures le(s[0], rest[j])
      {
        assert rest[j] in multiset(rest);
        assert rest[j] == x || rest[j] in s[1..];
      }
    }
  }

  lemma {:induction false} SortOrdered<T(!new)>(le: (T, T) -> bool, s: seq<T>)
    requires TotalPreorder(le)
    ensures Ordered(le, SortBy(le, s))
  {
    if s != [] {
      SortOrdered(le, s[1..]);
      InsertOrdered(le, s[0], SortBy(le, s[1..]));
    }
  }

  lemma SortMember<T>(le: (T, T) -> bool, s: seq<T>, x: T)
    ensures x in SortBy(le, s) <==> x in s
  {
    SortPermutes(le, s);
    assert x in SortBy(le, s) <==> x in multiset(SortBy(le, s));
    assert x in s <==> x in multiset(s);
  }

  /** Insertion splits the list: x goes before the first element that it may precede. */
  lemma {:induction false} InsertAt<T>(le: (T, T) -> bool, x: T, s: seq<T>) returns (m: nat)
    ensures m <= |s| && Insert(le, x, s) == s[..m] + [x] + s[m..]
    ensures forall k :: 0 <= k < |s| && le(x, s[k]) ==> m <= k
  {
    if s == [] || le(x, s[0]) {
      m := 0;
    } else {
      var n := InsertAt(le, x, s[1..]);
      m := n + 1;
      assert s[..m] == [s[0]] + s[1..][..n] && s[m..] == s[1..][n..];
    }
  }

  lemma SplicedAt<T>(s: seq<T>, m: nat, x: T)
    requires m <= |s|
    ensures var r := s[..m] + [x] + s[m..];
            r[m] == x && forall k :: 0 <= k < |s| ==> r[if k < m then k else k + 1] == s[k]
  {
  }

  /** The sort is stable: what stood in front and may stay in front does. */
  lemma {:induction false} SortStable<T>(le: (T, T) -> bool, s: seq<T>, i: nat, j: nat) returns (p: nat, q: nat)
    requires i < j < |s| && le(s[i], s[j])
    ensures p < q < |s| && SortBy(le, s)[p] == s[i] && SortBy(le, s)[q] == s[j]
  {
    hide Insert;
    var rest := SortBy(le, s[1..]);
    var m := InsertAt(le, s[0], rest);
    SplicedAt(rest, m, s[0]);
    assert SortBy(le, s) == rest[..m] + [s[0]] + rest[m..];
    if i == 0 {
      SortMember(le, s[1..], s[j]) by { assert s[1..][j - 1] == s[j]; }
      var k :| 0 <= k < |rest| && rest[k] == s[j];
      p, q := m, k + 1;
    } else {
      var a, b := SortStable(le, s[1..], i - 1, j - 1);
      hide SortBy;
      p := if a < m then a else a + 1;
      q := if b < m then b else b + 1;
    }
  }

  // ----- Sorting twice -----

  /** The order of `first`, and that of `second` among what `first` ties. */
  function Lex<T>(first: (T, T) -> bool, second: (T, T) -> bool): (T, T) -> bool {
    (a: T, b: T) => first(a, b) && (first(b, a) ==> second(a, b))
  }

  lemma LexIsPreorder<T(!new)>(first: (T, T) -> bool, second: (T, T) -> bool)
    requires TotalPreorder(first) && TotalPreorder(second)
    ensures TotalPreorder(Lex(first, second))
  {
  }

  /** Where x is no later than anything in s by `second`, the two orders agree on it. */
  lemma {:induction false} InsertAgrees<T>(first: (T, T) -> bool, second: (T, T) -> bool, x: T, s: seq<T>)
    requires forall y :: y in s ==> second(x, y)
    ensures Insert(first, x, s) == Insert(Lex(first, second), x, s)
  {
    if s != [] {
      assert second(x, s[0]);
      InsertAgrees(first, second, x, s[1..]);
    }
  }

  lemma {:induction false} InsertsCommute<T(!new)>(
      first: (T, T) -> bool, second: (T, T) -> bool, x: T, z: T, s: seq<T>)
    requires TotalPreorder(first) && !second(x, z)
    ensures Insert(first, z, Insert(Lex(first, second), x, s)) == Insert(Lex(first, second), x, Insert(first, z, s))
  {
    var both := Lex(first, second);
    if s == [] {
      assert first(x, z) || first(z, x);
    } else {
      InsertsCommute(first, second, x, z, s[1..]);
    }
  }

  lemma {:induction false} SortInserted<T(!new)>(first: (T, T) -> bool, second: (T, T) -> bool, x: T, s: seq<T>)
    requires TotalPreorder(first) && TotalPreorder(second) && Ordered(second, s)
    ensures SortBy(first, Insert(second, x, s)) == Insert(Lex(first, second), x, SortBy(first, s))
  {
    if s == [] || second(x, s[0]) {
      forall y | y in SortBy(first, s)
        ensures second(x, y)
      {
        SortMember(first, s, y);
        var k :| 0 <= k < |s| && s[k] == y;
        assert k > 0 ==> second(s[0], s[k]);
      }
      InsertAgrees(first, second, x, SortBy(first, s));
      assert ([x] + s)[1..] == s;
    } else {
      SortInserted(first, second, x, s[1..]);
      InsertsCommute(first, second, x, s[0], SortBy(first, s[1..]));
      assert ([s[0]] + Insert(second, x, s[1..]))[1..] == Insert(second, x, s[1..]);
    }
  }

  /** Sorting by `second` and then, stably, by `first` is one sort by both. */
  lemma {:induction false} SortTwice<T(!new)>(first: (T, T) -> bool, second: (T, T) -> bool, s: seq<T>)
    requires TotalPreorder(first) && TotalPreorder(second)
    ensures SortBy(first, SortBy(second, s)) == SortBy(Lex(first, second), s)
  {
    if s != [] {
      SortTwice(first, second, s[1..]);
      SortOrdered(second, s[1..]);
      SortInserted(first, second, s[0], SortBy(second, s[1..]));
    }
  }
}
