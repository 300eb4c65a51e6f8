/**
 * The canonical form of JSON values that the audit hash is computed over: object keys are
 * sorted at every depth, arrays keep their order. A rebuilt object lists the keys that are
 * array indices first, in ascending order, whatever the sort did.
 */
module Canonical {
  import opened Basics
  import opened Sorting

  datatype Json =
    | Null
    | Bool(b: bool)
    | Number(text: string)
    | Text(s: string)
    | Array(items: seq<Json>)
    | Object(entries: seq<Entry>)

  datatype Entry = Entry(key: string, value: Json)

  /** `localeCompare(left, right) <= 0`. */
  type Collation = (string, string) -> bool

  function ByKey(le: Collation): (Entry, Entry) -> bool {
    (a: Entry, b: Entry) => le(a.key, b.key)
  }

  // ----- Array indices -----

  predicate IsDigit(c: char) {
    '0' <= c <= '9'
  }

  function NumberOf(s: string): nat {
    if s == [] then 0
    else if IsDigit(s[|s| - 1]) then 10 * NumberOf(s[..|s| - 1]) + (s[|s| - 1] - '0') as nat
    else 0
  }

  predicate IsNumeral(s: string) {
    s != [] && (s[0] != '0' || |s| == 1) && forall i :: 0 <= i < |s| ==> IsDigit(s[i])
  }

  /** A key that is an array index: the numeral of a number below 2^32 - 1. */
  predicate IsIndex(key: string) {
    IsNumeral(key) && NumberOf(key) < 0xFFFF_FFFF
  }

  /** How an object lists its keys: array indices first and ascending, the others as created. */
  predicate ListedBefore(k: string, l: string) {
    IsIndex(l) ==> IsIndex(k) && NumberOf(k) <= NumberOf(l)
  }

  /** `Object.fromEntries` over the entries sorted with the comparator. */
  function Placed(le: Collation, entries: seq<Entry>): (r: seq<Entry>)
    ensures |r| == |entries|
  {
    SortBy(ByKey(ListedBefore), SortBy(ByKey(le), entries))
  }

  function Canonical(le: Collation, v: Json): Json
    decreases v
  {
    match v
    case Array(items) => Array(seq(|items|, i requires 0 <= i < |items| => Canonical(le, items[i])))
    case Object(entries) => Object(Renewed(le, entries, Placed(le, entries)))
    case _ => v
  }

  /** The entries in their new places, with their values made canonical. */
  function Renewed(le: Collation, entries: seq<Entry>, placed: seq<Entry>): (r: seq<Entry>)
    requires placed == Placed(le, entries)
    ensures |r| == |placed| && forall i :: 0 <= i < |r| ==> r[i].key == placed[i].key
    decreases entries, 0
  {
    seq(|placed|, i requires 0 <= i < |placed| =>
      PlacedMember(le, entries, placed[i]);
      Entry(placed[i].key, Canonical(le, placed[i].value)))
  }

  lemma PlacedMember(le: Collation, entries: seq<Entry>, e: Entry)
    ensures e in Placed(le, entries) <==> e in entries
  {
    SortMember(ByKey(le), entries, e);
    SortMember(ByKey(ListedBefore), SortBy(ByKey(le), entries), e);
  }

  predicate DistinctKeys(entries: seq<Entry>) {
    forall i, j :: 0 <= i < j < |entries| ==> entries[i].key != entries[j].key
  }

  predicate Listed(entries: seq<Entry>) {
    forall i, j :: 0 <= i < j < |entries| ==> ListedBefore(entries[i].key, entries[j].key)
  }

  /** A value as it can be at hand: no object holds a key twice, or lists its keys otherwise. */
  predicate WellFormed(v: Json)
    decreases v
  {
    match v
    case Array(items) => forall i :: 0 <= i < |items| ==> WellFormed(items[i])
    case Object(entries) =>
      DistinctKeys(entries) && Listed(entries) && forall i :: 0 <= i < |entries| ==> WellFormed(entries[i].value)
    case _ => true
  }

  /** The same value up to the order of keys. */
  predicate Same(v: Json, w: Json)
    decreases v
  {
    match v
    case Array(items) =>
      w.Array? && |items| == |w.items| && forall i :: 0 <= i < |items| ==> Same(items[i], w.items[i])
    case Object(entries) =>
      w.Object? && |entries| == |w.entries| && forall i :: 0 <= i < |entries| ==> Partnered(entries[i], w.entries)
    case _ => v == w
  }

  predicate Partnered(e: Entry, others: seq<Entry>)
    decreases e
  {
    exists j :: 0 <= j < |others| && others[j].key == e.key && Same(e.value, others[j].value)
  }

  /** Two keys that the comparator does not tell apart; array indices have places of their own. */
  predicate Ties(le: Collation, k: string, l: string) {
    k != l && !IsIndex(k) && !IsIndex(l) && le(k, l) && le(l, k)
  }

  predicate HasTie(le: Collation, entries: seq<Entry>) {
    exists i, j :: 0 <= i < j < |entries| && Ties(le, entries[i].key, entries[j].key)
  }

  /** No object, at any depth, holds two keys that tie. */
  predicate TieFree(le: Collation, v: Json)
    decreases v
  {
    match v
    case Array(items) => forall i :: 0 <= i < |items| ==> TieFree(le, items[i])
    case Object(entries) => !HasTie(le, entries) && forall i :: 0 <= i < |entries| ==> TieFree(le, entries[i].value)
    case _ => true
  }

  // ----- Array indices are told apart by their numbers -----

  lemma {:induction false} NumeralUnique(a: string, b: string)
    requires IsNumeral(a) && IsNumeral(b) && NumberOf(a) == NumberOf(b)
    ensures a == b
    decreases |a|
  {
    var x, y := a[..|a| - 1], b[..|b| - 1];
    var c, d := (a[|a| - 1] - '0') as nat, (b[|b| - 1] - '0') as nat;
    TensUnique(NumberOf(x), c, NumberOf(y), d);
    NumeralPrefix(a);
    NumeralPrefix(b);
    if x != [] && y != [] {
      NumeralUnique(x, y);
    }
    assert a == x + [a[|a| - 1]] && b == y + [b[|b| - 1]];
  }

  lemma TensUnique(x: nat, c: nat, y: nat, d: nat)
    requires c < 10 && d < 10 && 10 * x + c == 10 * y + d
    ensures x == y && c == d
  {
  }

  lemma {:induction false} NumeralPrefix(s: string)
    requires IsNumeral(s)
    ensures |s| > 1 ==> IsNumeral(s[..|s| - 1]) && NumberOf(s[..|s| - 1]) > 0
    ensures |s| == 1 ==> s[..|s| - 1] == [] && NumberOf(s[..|s| - 1]) == 0
    decreases |s|
  {
    if |s| > 1 {
      var x := s[..|s| - 1];
      assert x[0] == s[0];
      NumeralPrefix(x);
    }
  }

  /** A number written in decimal. */
  function Numeral(n: nat): string
    decreases n
  {
    if n < 10 then [('0' as int + n) as char] else Numeral(n / 10) + [('0' as int + n % 10) as char]
  }

  lemma {:induction false} NumeralMeaning(n: nat)
    ensures IsNumeral(Numeral(n)) && NumberOf(Numeral(n)) == n && (n > 0 ==> Numeral(n)[0] != '0')
    decreases n
  {
    var s := Numeral(n);
    if n < 10 {
      assert s[..0] == [] && NumberOf(s[..0]) == 0;
    } else {
      NumeralMeaning(n / 10);
      assert s[..|s| - 1] == Numeral(n / 10);
      assert forall i :: 0 <= i < |s| - 1 ==> s[i] == Numeral(n / 10)[i];
    }
  }

  /** The keys listed first are exactly the numerals of the numbers below 2^32 - 1. */
  lemma IndexMeaning(key: string)
    ensures IsIndex(key) <==> exists n: nat :: n < 4294967295 && key == Numeral(n)
  {
    if IsIndex(key) {
      NumeralMeaning(NumberOf(key));
      NumeralUnique(key, Numeral(NumberOf(key)));
    }
    if n: nat :| n < 4294967295 && key == Numeral(n) {
      NumeralMeaning(n);
    }
  }

  /** The one order of two sorts in a row: array indices first, then the comparator. */
  function KeyOrder(le: Collation): Collation {
    Lex(ListedBefore, le)
  }

  lemma ListedApart(k: string, l: string)
    requires k != l
    ensures ListedBefore(k, l) && ListedBefore(l, k) <==> !IsIndex(k) && !IsIndex(l)
  {
    hide NumberOf, IsNumeral;
    if IsNumeral(k) && IsNumeral(l) && NumberOf(k) == NumberOf(l) {
      NumeralUnique(k, l);
    }
  }

  lemma TiesMeaning(le: Collation, k: string, l: string)
    requires k != l
    ensures Ties(le, k, l) <==> KeyOrder(le)(k, l) && KeyOrder(le)(l, k)
  {
    hide ListedBefore, IsIndex;
    ListedApart(k, l);
  }

  lemma ListedIsPreorder()
    ensures TotalPreorder(ListedBefore)
  {
  }

  // ----- Sorted keys -----

  function Keys(entries: seq<Entry>): seq<string> {
    Map((e: Entry) => e.key, entries)
  }

  predicate Distinct(s: seq<string>) {
    forall i, j :: 0 <= i < j < |s| ==> s[i] != s[j]
  }

  /** No two of the keys tie. */
  ghost predicate Untied(order: Collation, s: seq<string>) {
    forall x, y :: x in s && y in s && order(x, y) && order(y, x) ==> x == y
  }

  lemma {:induction false} OrderedUnique(order: Collation, a: seq<string>, b: seq<string>)
    requires Ordered(order, a) && Ordered(order, b) && Distinct(a) && Distinct(b) && Untied(order, a)
    requires forall x :: x in a <==> x in b
    ensures a == b
  {
    if b != [] {
      assert b[0] in b;
    }
    if a != [] {
      assert a[0] in a;
      SameHead(order, a, b);
      TailMembers(a);
      TailMembers(b);
      OrderedUnique(order, a[1..], b[1..]);
      assert a == [a[0]] + a[1..] && b == [b[0]] + b[1..];
    }
  }

  lemma SameHead(order: Collation, a: seq<string>, b: seq<string>)
    requires Ordered(order, a) && Ordered(order, b) && Untied(order, a)
    requires (forall x :: x in a <==> x in b) && a != [] && b != []
    ensures a[0] == b[0]
  {
    assert b[0] in a && a[0] in b;
    var i :| 0 <= i < |a| && a[i] == b[0];
    var j :| 0 <= j < |b| && b[j] == a[0];
    if i > 0 && j > 0 {
      assert order(a[0], a[i]) && order(b[0], b[j]);
    }
  }

  lemma TailMembers(s: seq<string>)
    requires s != [] && Distinct(s)
    ensures forall x :: x in s[1..] <==> x in s && x != s[0]
  {
  }

  lemma {:induction false} DistinctSize(s: seq<string>)
    requires Distinct(s)
    ensures |set x | x in s| == |s|
  {
    if s != [] {
      DistinctSize(s[1..]);
      TailMembers(s);
      assert (set x | x in s) == (set x | x in s[1..]) + {s[0]};
    }
  }

  /** Distinct sequences of one length, one within the other, have the same members. */
  lemma CoveredIsCovering(a: seq<string>, b: seq<string>)
    requires Distinct(a) && Distinct(b) && |a| == |b| && forall x :: x in a ==> x in b
    ensures forall x :: x in b ==> x in a
  {
    var A, B := set x | x in a, set x | x in b;
    DistinctSize(a);
    DistinctSize(b);
    assert A <= B;
    assert |B - A| == 0;
    assert B - A == {};
    forall x | x in b
      ensures x in a
    {
      assert x in B;
    }
  }

  lemma {:induction false} InsertKeepsDistinct(le: (Entry, Entry) -> bool, x: Entry, s: seq<Entry>)
    requires DistinctKeys(s) && forall e :: e in s ==> e.key != x.key
    ensures DistinctKeys(Insert(le, x, s))
  {
    if s != [] && !le(x, s[0]) {
      var rest := Insert(le, x, s[1..]);
      InsertKeepsDistinct(le, x, s[1..]);
      InsertPermutes(le, x, s[1..]);
      forall i | 0 <= i < |rest|
        ensures rest[i].key != s[0].key
      {
        assert rest[i] in multiset(rest);
        assert rest[i] == x || rest[i] in s[1..];
      }
    }
  }

  lemma {:induction false} SortKeepsDistinct(le: (Entry, Entry) -> bool, s: seq<Entry>)
    requires DistinctKeys(s)
    ensures DistinctKeys(SortBy(le, s))
  {
    if s != [] {
      SortKeepsDistinct(le, s[1..]);
      forall e | e in SortBy(le, s[1..])
        ensures e.key != s[0].key
      {
        SortMember(le, s[1..], e);
      }
      InsertKeepsDistinct(le, s[0], SortBy(le, s[1..]));
    }
  }

  lemma KeyMember(entries: seq<Entry>, x: string)
    ensures x in Keys(entries) <==> exists e :: e in entries && e.key == x
  {
    if x in Keys(entries) {
      var i :| 0 <= i < |entries| && Keys(entries)[i] == x;
      assert entries[i] in entries;
    }
    if e :| e in entries && e.key == x {
      var i :| 0 <= i < |entries| && entries[i] == e;
      assert Keys(entries)[i] == x;
    }
  }

  lemma ByKeyIsPreorder(le: Collation)
    requires TotalPreorder(le)
    ensures TotalPreorder(ByKey(le))
  {
    var order := ByKey(le);
    forall x, y
      ensures order(x, y) || order(y, x)
    {
      assert le(x.key, y.key) || le(y.key, x.key);
    }
    forall x, y, z | order(x, y) && order(y, z)
      ensures order(x, z)
    {
      assert le(x.key, y.key) && le(y.key, z.key);
    }
  }

  lemma PlacedIsDistinct(le: Collation, entries: seq<Entry>)
    requires DistinctKeys(entries)
    ensures DistinctKeys(Placed(le, entries))
  {
    SortKeepsDistinct(ByKey(le), entries);
    SortKeepsDistinct(ByKey(ListedBefore), SortBy(ByKey(le), entries));
  }

  lemma PlacedIsOrdered(le: Collation, entries: seq<Entry>)
    requires TotalPreorder(le)
    ensures Ordered(KeyOrder(le), Keys(Placed(le, entries)))
  {
    var first, second := ByKey(ListedBefore), ByKey(le);
    ByKeyIsPreorder(le);
    ListedIsPreorder();
    ByKeyIsPreorder(ListedBefore);
    SortTwice(first, second, entries);
    LexIsPreorder(first, second);
    SortOrdered(Lex(first, second), entries);
    var placed := Placed(le, entries);
    hide SortBy, Placed;
    forall i, j | 0 <= i < j < |Keys(placed)|
      ensures KeyOrder(le)(Keys(placed)[i], Keys(placed)[j])
    {
      assert Lex(first, second)(placed[i], placed[j]);
    }
  }

  lemma PlacedKeys(le: Collation, entries: seq<Entry>)
    requires TotalPreorder(le) && DistinctKeys(entries)
    ensures var keys := Keys(Placed(le, entries));
            Ordered(KeyOrder(le), keys) && Distinct(keys) && forall x :: x in keys <==> x in Keys(entries)
  {
    hide Placed;
    PlacedIsDistinct(le, entries);
    PlacedIsOrdered(le, entries);
    KeysAreDistinct(Placed(le, entries));
    forall x
      ensures x in Keys(Placed(le, entries)) <==> x in Keys(entries)
    {
      KeyMember(Placed(le, entries), x);
      KeyMember(entries, x);
      forall e
        ensures e in Placed(le, entries) <==> e in entries
      {
        PlacedMember(le, entries, e);
      }
    }
  }

  lemma TieShows(le: Collation, entries: seq<Entry>, i: nat, j: nat)
    requires i < |entries| && j < |entries| && Ties(le, entries[i].key, entries[j].key)
    ensures HasTie(le, entries)
  {
    hide IsIndex;
    assert Ties(le, entries[j].key, entries[i].key);
  }

  lemma TieFreeKeys(le: Collation, entries: seq<Entry>)
    requires !HasTie(le, entries)
    ensures Untied(KeyOrder(le), Keys(entries))
  {
    hide KeyOrder, HasTie, Ties;
    forall x, y | x in Keys(entries) && y in Keys(entries)
      ensures KeyOrder(le)(x, y) && KeyOrder(le)(y, x) ==> x == y
    {
      KeysTieOnly(le, entries, x, y);
    }
  }

  lemma KeysTieOnly(le: Collation, entries: seq<Entry>, x: string, y: string)
    requires x in Keys(entries) && y in Keys(entries)
    ensures KeyOrder(le)(x, y) && KeyOrder(le)(y, x) ==> x == y || HasTie(le, entries)
  {
    hide KeyOrder, HasTie, Ties;
    var i :| 0 <= i < |entries| && Keys(entries)[i] == x;
    var j :| 0 <= j < |entries| && Keys(entries)[j] == y;
    if x != y {
      TiesMeaning(le, x, y);
      if Ties(le, x, y) {
        TieShows(le, entries, i, j);
      }
    }
  }

  // ----- The canonical form decides sameness -----

  /** Every entry has a partner of the same key in the other object. */
  predicate KeysPartnered(a: seq<Entry>, b: seq<Entry>) {
    |a| == |b| && forall x :: x in Keys(a) ==> x in Keys(b)
  }

  lemma SameKeysPlaced(le: Collation, a: seq<Entry>, b: seq<Entry>)
    requires TotalPreorder(le) && DistinctKeys(a) && DistinctKeys(b) && KeysPartnered(a, b) && !HasTie(le, a)
    ensures Keys(Placed(le, a)) == Keys(Placed(le, b))
  {
    hide Placed, Keys, KeyOrder, HasTie;
    PlacedKeys(le, a);
    PlacedKeys(le, b);
    KeysAreDistinct(a);
    KeysAreDistinct(b);
    CoveredIsCovering(Keys(a), Keys(b));
    TieFreeKeys(le, a);
    OrderedUnique(KeyOrder(le), Keys(Placed(le, a)), Keys(Placed(le, b)));
  }

  lemma KeysAreDistinct(a: seq<Entry>)
    requires DistinctKeys(a)
    ensures Distinct(Keys(a)) && |Keys(a)| == |a|
  {
  }

  lemma CanonicalShape(le: Collation, v: Json)
    ensures var c := Canonical(le, v);
            && (c.Array? <==> v.Array?) && (c.Object? <==> v.Object?)
            && (v.Array? ==> |c.items| == |v.items|) && (v.Object? ==> |c.entries| == |v.entries|)
            && (!v.Array? && !v.Object? ==> c == v)
  {
  }

  /** Whatever the comparator ties, values of one canonical form differ at most in their key order. */
  lemma {:induction false} OneFormIsSame(le: Collation, v: Json, w: Json)
    requires Canonical(le, v) == Canonical(le, w)
    ensures Same(v, w)
    decreases v
  {
    CanonicalShape(le, v);
    CanonicalShape(le, w);
    match v
    case Array(items) =>
      forall i | 0 <= i < |items|
        ensures Same(items[i], w.items[i])
      {
        assert Canonical(le, v).items[i] == Canonical(le, w).items[i];
        OneFormIsSame(le, items[i], w.items[i]);
      }
    case Object(entries) =>
      forall i | 0 <= i < |entries|
        ensures Partnered(entries[i], w.entries)
      {
        var j := PartnerOf(le, entries, w.entries, i);
        OneFormIsSame(le, entries[i].value, w.entries[j].value);
      }
    case _ =>
  }

  /** Where a rebuilt object holds an entry. */
  lemma PlaceOf(le: Collation, entries: seq<Entry>, i: nat) returns (p: nat)
    requires i < |entries|
    ensures p < |entries| && Placed(le, entries)[p] == entries[i]
    ensures Canonical(le, Object(entries)).entries[p] == Entry(entries[i].key, Canonical(le, entries[i].value))
  {
    hide Placed;
    var placed := Placed(le, entries);
    PlacedMember(le, entries, entries[i]);
    p :| 0 <= p < |placed| && placed[p] == entries[i];
  }

  /** Which entry a rebuilt object holds at a place. */
  lemma EntryAt(le: Collation, entries: seq<Entry>, p: nat) returns (j: nat)
    requires p < |entries|
    ensures j < |entries| && Placed(le, entries)[p] == entries[j]
    ensures Canonical(le, Object(entries)).entries[p] == Entry(entries[j].key, Canonical(le, entries[j].value))
  {
    hide Placed;
    var placed := Placed(le, entries);
    PlacedMember(le, entries, placed[p]);
    j :| 0 <= j < |entries| && entries[j] == placed[p];
  }

  lemma PartnerOf(le: Collation, a: seq<Entry>, b: seq<Entry>, i: nat) returns (j: nat)
    requires Canonical(le, Object(a)) == Canonical(le, Object(b)) && i < |a|
    ensures j < |b| && b[j].key == a[i].key && Canonical(le, a[i].value) == Canonical(le, b[j].value)
  {
    hide Canonical;
    CanonicalShape(le, Object(a));
    CanonicalShape(le, Object(b));
    var p := PlaceOf(le, a, i);
    j := EntryAt(le, b, p);
  }

  /** Without ties, values that differ at most in their key order have one canonical form. */
  lemma {:induction false} SameIsOneForm(le: Collation, v: Json, w: Json)
    requires TotalPreorder(le) && WellFormed(v) && WellFormed(w) && TieFree(le, v) && Same(v, w)
    ensures Canonical(le, v) == Canonical(le, w)
    decreases v
  {
    match v
    case Array(items) =>
      forall i | 0 <= i < |items|
        ensures Canonical(le, items[i]) == Canonical(le, w.items[i])
      {
        SameIsOneForm(le, items[i], w.items[i]);
      }
    case Object(entries) =>
      forall i, j | 0 <= i < |entries| && 0 <= j < |w.entries| && Same(entries[i].value, w.entries[j].value)
        ensures Canonical(le, entries[i].value) == Canonical(le, w.entries[j].value)
      {
        SameIsOneForm(le, entries[i].value, w.entries[j].value);
      }
      SameObjects(le, entries, w.entries);
    case _ =>
  }

  /** Values that are the same have one form. */
  predicate OneForms(le: Collation, a: seq<Entry>, b: seq<Entry>) {
    forall i, j :: 0 <= i < |a| && 0 <= j < |b| && Same(a[i].value, b[j].value) ==>
      Canonical(le, a[i].value) == Canonical(le, b[j].value)
  }

  /** Entries found under one key are partners. */
  lemma PartnersAt(le: Collation, a: seq<Entry>, b: seq<Entry>, i: nat, k: nat)
    requires DistinctKeys(b) && OneForms(le, a, b) && Same(Object(a), Object(b))
    requires i < |a| && k < |b| && a[i].key == b[k].key
    ensures Canonical(le, a[i].value) == Canonical(le, b[k].value)
  {
    assert Partnered(a[i], b);
    var j :| 0 <= j < |b| && b[j].key == a[i].key && Same(a[i].value, b[j].value);
    assert j == k;
  }

  lemma SameObjects(le: Collation, a: seq<Entry>, b: seq<Entry>)
    requires TotalPreorder(le) && DistinctKeys(a) && DistinctKeys(b) && !HasTie(le, a)
    requires OneForms(le, a, b) && Same(Object(a), Object(b))
    ensures Canonical(le, Object(a)) == Canonical(le, Object(b))
  {
    assert KeysPartnered(a, b) && |a| == |b| by { SamePartners(a, b); }
    SameKeysPlaced(le, a, b);
    hide Placed, ByKey, DistinctKeys, OneForms, Same, TotalPreorder, KeysPartnered, HasTie;
    var ca, cb := Canonical(le, Object(a)).entries, Canonical(le, Object(b)).entries;
    hide Canonical;
    CanonicalShape(le, Object(a));
    CanonicalShape(le, Object(b));
    forall p | 0 <= p < |a|
      ensures ca[p] == cb[p]
    {
      var i := EntryAt(le, a, p);
      var k := EntryAt(le, b, p);
      assert Keys(Placed(le, a))[p] == Keys(Placed(le, b))[p];
      PartnersAt(le, a, b, i, k);
    }
    assert ca == cb;
  }

  lemma SamePartners(a: seq<Entry>, b: seq<Entry>)
    requires Same(Object(a), Object(b))
    ensures KeysPartnered(a, b)
  {
    forall x | x in Keys(a)
      ensures x in Keys(b)
    {
      var i :| 0 <= i < |a| && Keys(a)[i] == x;
      assert Partnered(a[i], b);
      var j :| 0 <= j < |b| && b[j].key == a[i].key && Same(a[i].value, b[j].value);
      assert Keys(b)[j] == x;
    }
  }

  /**
   * Two values, the first without ties, have one canonical form exactly when they differ
   * at most in the order of their keys, so the hash over it depends on the record and not
   * on how it was built.
   */
  lemma CanonicalDecides(le: Collation, v: Json, w: Json)
    requires TotalPreorder(le) && WellFormed(v) && WellFormed(w) && TieFree(le, v)
    ensures Canonical(le, v) == Canonical(le, w) <==> Same(v, w)
  {
    hide *;
    if Canonical(le, v) == Canonical(le, w) {
      OneFormIsSame(le, v, w);
    }
    if Same(v, w) {
      SameIsOneForm(le, v, w);
    }
  }

  // ----- Ties let the order of insertion show -----

  lemma {:induction false} SameSelf(v: Json)
    ensures Same(v, v)
    decreases v
  {
    match v
    case Array(items) =>
      forall i | 0 <= i < |items|
        ensures Same(items[i], items[i])
      {
        SameSelf(items[i]);
      }
    case Object(entries) =>
      forall i | 0 <= i < |entries|
        ensures Partnered(entries[i], entries)
      {
        SameSelf(entries[i].value);
      }
    case _ =>
  }

  function Exchanged(s: seq<Entry>, i: nat, j: nat): seq<Entry>
    requires i < j < |s|
  {
    s[i := s[j]][j := s[i]]
  }

  lemma ExchangedEntries(entries: seq<Entry>, i: nat, j: nat)
    requires i < j < |entries|
    ensures Same(Object(entries), Object(Exchanged(entries, i, j)))
  {
    var other := Exchanged(entries, i, j);
    forall k | 0 <= k < |entries|
      ensures Partnered(entries[k], other)
    {
      SameSelf(entries[k].value);
      var m := if k == i then j else if k == j then i else k;
      assert other[m] == entries[k];
    }
  }

  /** Behind a key that is no array index stand only such keys, so they may change places. */
  lemma ExchangedListed(entries: seq<Entry>, i: nat, j: nat)
    requires i < j < |entries| && Listed(entries) && !IsIndex(entries[i].key)
    ensures Listed(Exchanged(entries, i, j))
  {
    hide IsIndex, NumberOf;
    forall k | i <= k < |entries|
      ensures !IsIndex(entries[k].key)
    {
      assert i < k ==> ListedBefore(entries[i].key, entries[k].key);
    }
    var other := Exchanged(entries, i, j);
    forall k, m | 0 <= k < m < |other|
      ensures ListedBefore(other[k].key, other[m].key)
    {
      assert m < i ==> ListedBefore(entries[k].key, entries[m].key);
    }
  }

  lemma ExchangedIsSame(le: Collation, entries: seq<Entry>, i: nat, j: nat)
    requires WellFormed(Object(entries)) && i < j < |entries| && Ties(le, entries[i].key, entries[j].key)
    ensures WellFormed(Object(Exchanged(entries, i, j))) && Same(Object(entries), Object(Exchanged(entries, i, j)))
  {
    ExchangedListed(entries, i, j);
    ExchangedEntries(entries, i, j);
    hide IsIndex, Listed, Same;
  }

  /** Tied entries keep their order through both sorts. */
  lemma TiedStay(le: Collation, entries: seq<Entry>, i: nat, j: nat) returns (p: nat, q: nat)
    requires i < j < |entries| && Ties(le, entries[i].key, entries[j].key)
    ensures p < q < |entries| && Placed(le, entries)[p] == entries[i] && Placed(le, entries)[q] == entries[j]
  {
    hide SortBy, IsIndex;
    var a, b := SortStable(ByKey(le), entries, i, j);
    p, q := SortStable(ByKey(ListedBefore), SortBy(ByKey(le), entries), a, b);
  }

  lemma ExchangedDiffers(le: Collation, entries: seq<Entry>, i: nat, j: nat)
    requires WellFormed(Object(entries)) && i < j < |entries| && Ties(le, entries[i].key, entries[j].key)
    ensures Canonical(le, Object(entries)) != Canonical(le, Object(Exchanged(entries, i, j)))
  {
    var other := Exchanged(entries, i, j);
    var p, q := TiedStay(le, entries, i, j);
    var r, t := TiedStay(le, other, i, j);
    PlacedIsDistinct(le, entries);
    PlacedIsDistinct(le, other) by { ExchangedIsSame(le, entries, i, j); }
    hide Placed, WellFormed;
    var c, d := Renewed(le, entries, Placed(le, entries)), Renewed(le, other, Placed(le, other));
    if p != t {
      assert d[p].key != d[t].key;
      assert c[p] != d[p];
    } else {
      assert d[q].key != d[r].key;
      assert c[q] != d[q];
    }
  }

  lemma KeyedValues(le: Collation, a: seq<Entry>, b: seq<Entry>, i: nat)
    requires Canonical(le, Object(a)) == Canonical(le, Object(b))
    requires DistinctKeys(b) && i < |a| && i < |b| && a[i].key == b[i].key
    ensures Canonical(le, a[i].value) == Canonical(le, b[i].value)
  {
    hide Canonical;
    var j := PartnerOf(le, a, b, i);
    assert j == i;
  }

  lemma ChangedValueDiffers(le: Collation, entries: seq<Entry>, i: nat, u: Json)
    requires DistinctKeys(entries) && i < |entries| && Canonical(le, entries[i].value) != Canonical(le, u)
    ensures Canonical(le, Object(entries)) != Canonical(le, Object(entries[i := Entry(entries[i].key, u)]))
  {
    hide Canonical;
    var other := entries[i := Entry(entries[i].key, u)];
    assert DistinctKeys(other);
    if Canonical(le, Object(entries)) == Canonical(le, Object(other)) {
      KeyedValues(le, entries, other, i);
    }
  }

  /** A value with a tie has a twin of another form that differs from it in the order of two keys. */
  lemma {:induction false} TiedHasTwin(le: Collation, v: Json) returns (w: Json)
    requires WellFormed(v) && !TieFree(le, v)
    ensures WellFormed(w) && Same(v, w) && Canonical(le, v) != Canonical(le, w)
    decreases v
  {
    if v.Array? {
      var i :| 0 <= i < |v.items| && !TieFree(le, v.items[i]);
      var u := TiedHasTwin(le, v.items[i]);
      w := Array(v.items[i := u]);
      TwinInArray(le, v.items, i, u);
    } else if HasTie(le, v.entries) {
      var i, j :| 0 <= i < j < |v.entries| && Ties(le, v.entries[i].key, v.entries[j].key);
      w := Object(Exchanged(v.entries, i, j));
      ExchangedIsSame(le, v.entries, i, j);
      ExchangedDiffers(le, v.entries, i, j);
    } else {
      var i :| 0 <= i < |v.entries| && !TieFree(le, v.entries[i].value);
      var u := TiedHasTwin(le, v.entries[i].value);
      w := Object(v.entries[i := Entry(v.entries[i].key, u)]);
      TwinInObject(le, v.entries, i, u);
    }
  }

  lemma TwinInArray(le: Collation, items: seq<Json>, i: nat, u: Json)
    requires WellFormed(Array(items)) && i < |items|
    requires WellFormed(u) && Same(items[i], u) && Canonical(le, items[i]) != Canonical(le, u)
    ensures var w := Array(items[i := u]);
            WellFormed(w) && Same(Array(items), w) && Canonical(le, Array(items)) != Canonical(le, w)
  {
    var other := items[i := u];
    forall k | 0 <= k < |items|
      ensures Same(items[k], other[k])
    {
      SameSelf(items[k]);
    }
    assert Canonical(le, Array(items)).items[i] != Canonical(le, Array(other)).items[i];
  }

  lemma TwinInObject(le: Collation, entries: seq<Entry>, i: nat, u: Json)
    requires WellFormed(Object(entries)) && i < |entries|
    requires WellFormed(u) && Same(entries[i].value, u) && Canonical(le, entries[i].value) != Canonical(le, u)
    ensures var w := Object(entries[i := Entry(entries[i].key, u)]);
            WellFormed(w) && Same(Object(entries), w) && Canonical(le, Object(entries)) != Canonical(le, w)
  {
    hide Canonical, ListedBefore;
    var other := entries[i := Entry(entries[i].key, u)];
    forall k | 0 <= k < |entries|
      ensures Partnered(entries[k], other)
    {
      SameSelf(entries[k].value);
      assert other[k].key == entries[k].key && Same(entries[k].value, other[k].value);
    }
    ChangedValueDiffers(le, entries, i, u);
  }

  /**
   * The canonical form of a value is independent of the order in which keys were inserted
   * exactly when no object in it holds two keys that the comparator ties.
   */
  lemma OrderIsHiddenExactly(le: Collation, v: Json)
    requires TotalPreorder(le) && WellFormed(v)
    ensures (forall w :: WellFormed(w) && Same(v, w) ==> Canonical(le, v) == Canonical(le, w)) <==> TieFree(le, v)
  {
    hide *;
    if TieFree(le, v) {
      forall w | WellFormed(w) && Same(v, w)
        ensures Canonical(le, v) == Canonical(le, w)
      {
        SameIsOneForm(le, v, w);
      }
    } else {
      var w := TiedHasTwin(le, v);
    }
  }

  /** For one, an object of two tied keys. */
  lemma TiesDependOnOrder(le: Collation, k: string, l: string)
    requires Ties(le, k, l)
    ensures var v, w := Object([Entry(k, Null), Entry(l, Null)]), Object([Entry(l, Null), Entry(k, Null)]);
            WellFormed(v) && WellFormed(w) && Same(v, w) && Canonical(le, v) != Canonical(le, w)
  {
    hide Canonical, Same, IsIndex;
    var entries := [Entry(k, Null), Entry(l, Null)];
    assert Exchanged(entries, 0, 1) == [Entry(l, Null), Entry(k, Null)];
    ExchangedIsSame(le, entries, 0, 1);
    ExchangedDiffers(le, entries, 0, 1);
  }
}
