/**
 * The contact import: a file is cut into lines before quotes are looked at, each line is
 * trimmed and parsed on its own. When does it read back a file printed row by row?
 */
module CsvImport {
  import opened Basics
  import opened Text
  import opened Csv

  // ----- Lines -----

  /** `text.split(/\r?\n/)`, the line read so far being carried along. */
  function Split(text: string, line: string): seq<string>
    decreases |text|
  {
    if text == [] then [line]
    else if text[0] == '\n' then [line] + Split(text[1..], [])
    else if text[0] == '\r' && |text| > 1 && text[1] == '\n' then [line] + Split(text[2..], [])
    else Split(text[1..], line + [text[0]])
  }

  /** A byte-order mark at the start of the file is dropped. */
  function WithoutMark(text: string): string {
    if text != [] && text[0] == '\U{FEFF}' then text[1..] else text
  }

  /** `.map(trim).filter(Boolean)` */
  function Trimmed(lines: seq<string>): seq<string> {
    Filter((l: string) => l != [], Map(Trim, lines))
  }

  function Delimiter(first: string): char {
    if '|' in first then '|' else if '\t' in first then '\t' else ','
  }

  /** A bar in the first line wins over a tab, and that over the comma. */
  lemma DelimiterMeaning(first: string)
    ensures Delimiter(first) == '|' <==> exists i :: 0 <= i < |first| && first[i] == '|'
    ensures Delimiter(first) == '\t' <==> (forall i :: 0 <= i < |first| ==> first[i] != '|')
                                          && exists i :: 0 <= i < |first| && first[i] == '\t'
    ensures Delimiter(first) in ['|', '\t', ',']
  {
  }

  /** The records of an uploaded file, the header first. */
  function Records(text: string): seq<seq<string>> {
    var lines := Trimmed(Split(WithoutMark(text), []));
    if lines == [] then []
    else
      var delimiter := Delimiter(lines[0]);
      Map((line: string) => Scan(line, delimiter, [], false), lines)
  }

  const CRLF := ['\r', '\n']

  /** The file: rows printed as by the exporter, joined by line breaks. */
  function File(rows: seq<seq<string>>): string {
    if rows == [] then []
    else if |rows| == 1 then Line(rows[0])
    else Line(rows[0]) + (CRLF + File(rows[1..]))
  }

  function Line(row: seq<string>): string {
    Row(Map((s: string) => Some(s), row))
  }

  function TrimmedRow(row: seq<string>): seq<string> {
    Map(Trim, row)
  }

  // ----- Trimming a line does not change its fields -----

  predicate AllSpace(s: string) {
    forall c :: c in s ==> IsSpace(c)
  }

  lemma {:induction false} TrimStartLead(w: string, s: string)
    requires AllSpace(w)
    ensures TrimStart(w + s) == TrimStart(s)
  {
    hide IsSpace;
    if w == [] {
      assert w + s == s;
    } else {
      assert w[0] in w && (w + s)[0] == w[0] && (w + s)[1..] == w[1..] + s;
      TrimStartLead(w[1..], s);
    }
  }

  lemma {:induction false} TrimEndTail(s: string, w: string)
    requires AllSpace(w)
    ensures TrimEnd(s + w) == TrimEnd(s)
  {
    hide IsSpace;
    if w == [] {
      assert s + w == s;
    } else {
      var n := |w| - 1;
      assert w[n] in w && (s + w)[|s + w| - 1] == w[n] && (s + w)[..|s + w| - 1] == s + w[..n];
      TrimEndTail(s, w[..n]);
    }
  }

  lemma {:induction false} TrimStartSplits(s: string) returns (w: string)
    ensures AllSpace(w) && s == w + TrimStart(s)
  {
    hide IsSpace;
    if s != [] && IsSpace(s[0]) {
      var rest := TrimStartSplits(s[1..]);
      w := [s[0]] + rest;
    } else {
      w := [];
    }
  }

  lemma {:induction false} TrimEndSplits(s: string) returns (w: string)
    ensures AllSpace(w) && s == TrimEnd(s) + w
  {
    hide IsSpace;
    if s != [] && IsSpace(s[|s| - 1]) {
      var rest := TrimEndSplits(s[..|s| - 1]);
      w := rest + [s[|s| - 1]];
    } else {
      w := [];
    }
  }

  lemma TrimLead(w: string, s: string)
    requires AllSpace(w)
    ensures Trim(w + s) == Trim(s)
  {
    TrimStartLead(w, s);
  }

  lemma {:induction false} TrimStartAll(w: string)
    requires AllSpace(w)
    ensures TrimStart(w) == []
  {
    hide IsSpace;
    if w != [] {
      assert w[0] in w;
      TrimStartAll(w[1..]);
    }
  }

  lemma {:induction false} TrimTail(s: string, w: string)
    requires AllSpace(w)
    ensures Trim(s + w) == Trim(s)
  {
    hide IsSpace;
    if AllSpace(s) {
      TrimStartAll(s);
      TrimStartAll(s + w);
    } else {
      TrimStartBeforeTail(s, w);
      TrimEndTail(TrimStart(s), w);
    }
  }

  lemma {:induction false} TrimStartBeforeTail(s: string, w: string)
    requires !AllSpace(s)
    ensures TrimStart(s + w) == TrimStart(s) + w
  {
    hide IsSpace;
    assert s != [] && (s + w)[0] == s[0] && (s + w)[1..] == s[1..] + w;
    if IsSpace(s[0]) {
      TrimStartBeforeTail(s[1..], w);
    }
  }

  /** White space before a value is trimmed off it in the end. */
  lemma {:induction false} ScanLead(line: string, w: string, value: string, quoted: bool)
    requires AllSpace(w)
    ensures Scan(line, ',', w + value, quoted) == Scan(line, ',', value, quoted)
    decreases |line|
  {
    hide Trim, AllSpace;
    if line == [] {
      TrimLead(w, value);
    } else if line[0] == '"' {
      if quoted && |line| > 1 && line[1] == '"' {
        assert w + value + ['"'] == w + (value + ['"']);
        ScanLead(line[2..], w, value + ['"'], quoted);
      } else {
        ScanLead(line[1..], w, value, !quoted);
      }
    } else if line[0] == ',' && !quoted {
      TrimLead(w, value);
    } else {
      assert w + value + [line[0]] == w + (value + [line[0]]);
      ScanLead(line[1..], w, value + [line[0]], quoted);
    }
  }

  lemma {:induction false} ScanSpaces(w: string, value: string, quoted: bool)
    requires AllSpace(w)
    ensures Scan(w, ',', value, quoted) == [Trim(value)]
    decreases |w|
  {
    hide Trim;
    if w != [] {
      assert w[0] in w;
      ScanSpaces(w[1..], value + [w[0]], quoted);
      TrimTail(value, [w[0]]);
    }
  }

  lemma ScanLeadingSpaces(w: string, line: string, value: string)
    requires AllSpace(w)
    ensures Scan(w + line, ',', value, false) == Scan(line, ',', value + w, false)
  {
    hide Trim, Scan;
    ScanPlain(w, line, ',', value);
  }

  lemma {:induction false} ScanTail(line: string, w: string, value: string, quoted: bool)
    requires AllSpace(w)
    ensures Scan(line + w, ',', value, quoted) == Scan(line, ',', value, quoted)
    decreases |line|
  {
    hide Trim, AllSpace;
    if line == [] {
      assert line + w == w;
      ScanSpaces(w, value, quoted);
    } else {
      assert (line + w)[0] == line[0] && (line + w)[1..] == line[1..] + w;
      if line[0] == '"' && quoted && |line| > 1 && line[1] == '"' {
        assert (line + w)[1] == '"' && (line + w)[2..] == line[2..] + w;
        ScanTail(line[2..], w, value + ['"'], quoted);
      } else if line[0] == '"' {
        if quoted {
          QuoteNotDoubled(line, w);
        }
        ScanTail(line[1..], w, value, !quoted);
      } else if line[0] == ',' && !quoted {
        ScanTail(line[1..], w, [], quoted);
      } else {
        ScanTail(line[1..], w, value + [line[0]], quoted);
      }
    }
  }

  lemma QuoteNotDoubled(line: string, w: string)
    requires AllSpace(w) && line != [] && !(|line| > 1 && line[1] == '"')
    ensures !(|line + w| > 1 && (line + w)[1] == '"')
  {
    if |line| == 1 && w != [] {
      assert (line + w)[1] == w[0] && w[0] in w;
    }
  }

  lemma TrimKeepsFields(line: string)
    ensures Scan(Trim(line), ',', [], false) == Scan(line, ',', [], false)
  {
    var w := TrimStartSplits(line);
    var tail := TrimEndSplits(TrimStart(line));
    var core := Trim(line);
    assert line == w + (core + tail);
    hide *;
    ScanLeadingSpaces(w, core + tail, []);
    assert [] + w == w + [];
    ScanLead(core + tail, w, [], false);
    ScanTail(core, tail, [], false);
  }

  // ----- Lines of a file -----

  predicate HasLineFeed(row: seq<string>) {
    exists i :: 0 <= i < |row| && '\n' in row[i]
  }

  /** A line break between two texts separates their lines. */
  lemma {:induction false} SplitJoined(a: string, b: string, line: string)
    ensures Split(a + (CRLF + b), line) == Split(a, line) + Split(b, [])
    decreases |a|
  {
    var text := a + (CRLF + b);
    if a == [] {
      assert text[0] == '\r' && text[1] == '\n' && text[2..] == b;
    } else if a[0] == '\n' {
      assert text[0] == a[0] && text[1..] == a[1..] + (CRLF + b);
      SplitJoined(a[1..], b, []);
    } else if a[0] == '\r' && |a| > 1 && a[1] == '\n' {
      assert text[0] == a[0] && text[1] == a[1] && text[2..] == a[2..] + (CRLF + b);
      SplitJoined(a[2..], b, []);
    } else {
      assert text[0] == a[0] && text[1..] == a[1..] + (CRLF + b);
      assert |a| == 1 ==> text[1] == '\r';
      SplitJoined(a[1..], b, line + [a[0]]);
    }
  }

  lemma {:induction false} SplitWhole(a: string, line: string)
    requires '\n' !in a
    ensures Split(a, line) == [line + a]
    decreases |a|
  {
    if a == [] {
      assert line + a == line;
    } else {
      assert a[0] in a && (|a| > 1 ==> a[1] in a);
      assert forall c :: c in a[1..] ==> c in a;
      SplitWhole(a[1..], line + [a[0]]);
      assert line + [a[0]] + a[1..] == line + a;
    }
  }

  /** Lines that are not blank. */
  function Count(text: string): nat {
    |Trimmed(Split(text, []))|
  }

  lemma TrimmedJoined(a: seq<string>, b: seq<string>)
    ensures Trimmed(a + b) == Trimmed(a) + Trimmed(b)
  {
    hide Trim;
    assert Map(Trim, a + b) == Map(Trim, a) + Map(Trim, b);
    FilterConcat((l: string) => l != [], Map(Trim, a), Map(Trim, b));
  }

  lemma CountJoined(a: string, b: string)
    ensures Count(a + (CRLF + b)) == Count(a) + Count(b)
  {
    hide Split, Trimmed;
    SplitJoined(a, b, []);
    TrimmedJoined(Split(a, []), Split(b, []));
  }

  lemma {:induction false} TrimStartKeeps(s: string, c: char)
    requires c in s && !IsSpace(c)
    ensures c in TrimStart(s)
  {
    hide IsSpace;
    if IsSpace(s[0]) {
      TrimStartKeeps(s[1..], c);
    }
  }

  lemma {:induction false} TrimEndKeeps(s: string, c: char)
    requires c in s && !IsSpace(c)
    ensures c in TrimEnd(s)
  {
    hide IsSpace;
    var n := |s| - 1;
    assert s == s[..n] + [s[n]];
    if IsSpace(s[n]) {
      TrimEndKeeps(s[..n], c);
    }
  }

  lemma TrimKeeps(s: string, c: char)
    requires c in s && !IsSpace(c)
    ensures c in Trim(s)
  {
    hide IsSpace, TrimStart, TrimEnd;
    TrimStartKeeps(s, c);
    TrimEndKeeps(TrimStart(s), c);
  }

  lemma TrimmedSome(lines: seq<string>, k: nat)
    requires k < |lines| && Trim(lines[k]) != []
    ensures |Trimmed(lines)| >= 1
  {
    hide Trim;
    var mapped := Map(Trim, lines);
    assert mapped[k] in mapped;
    FilterMember((l: string) => l != [], mapped, mapped[k]);
  }

  lemma {:induction false} SplitKeeps(text: string, line: string, c: char) returns (k: nat)
    requires (c in text || c in line) && c != '\n' && c != '\r'
    ensures k < |Split(text, line)| && c in Split(text, line)[k]
    decreases |text|
  {
    if text == [] || (c in line && text[0] == '\n') {
      k := 0;
    } else if text[0] == '\n' {
      k := SplitKeeps(text[1..], [], c);
      k := k + 1;
    } else if text[0] == '\r' && |text| > 1 && text[1] == '\n' {
      if c in line {
        k := 0;
      } else {
        assert text == [text[0], text[1]] + text[2..];
        k := SplitKeeps(text[2..], [], c);
        k := k + 1;
      }
    } else {
      assert text == [text[0]] + text[1..];
      k := SplitKeeps(text[1..], line + [text[0]], c);
    }
  }

  /** A text with a visible character has a line that is not blank. */
  lemma CountSome(text: string, c: char)
    requires c in text && !IsSpace(c)
    ensures Count(text) >= 1
  {
    assert IsSpace('\n') && IsSpace('\r');
    hide IsSpace, Split, Trimmed, Trim;
    var k := SplitKeeps(text, [], c);
    TrimKeeps(Split(text, [])[k], c);
    TrimmedSome(Split(text, []), k);
  }

  /** A line feed between two texts separates their lines, taking a return before it along. */
  lemma {:induction false} SplitAtFeed(a: string, b: string, line: string)
    requires '\n' !in a
    ensures var head := if a != [] && a[|a| - 1] == '\r' then a[..|a| - 1] else a;
            Split(a + (['\n'] + b), line) == [line + head] + Split(b, [])
    decreases |a|
  {
    var text := a + (['\n'] + b);
    if a == [] {
      assert text[1..] == b && line + a == line;
    } else if |a| == 1 && a[0] == '\r' {
      assert text[0] == '\r' && text[1] == '\n' && text[2..] == b && a[..0] == [] && line + [] == line;
    } else {
      assert a[0] in a && (|a| > 1 ==> a[1] in a && text[1] == a[1]);
      assert text[0] == a[0] && text[1..] == a[1..] + (['\n'] + b);
      assert forall c :: c in a[1..] ==> c in a;
      SplitAtFeed(a[1..], b, line + [a[0]]);
      assert line + [a[0]] + a[1..] == line + a;
      assert |a| > 1 ==> line + [a[0]] + a[1..][..|a| - 2] == line + a[..|a| - 1];
    }
  }

  /** Visible characters on both sides of the first line feed make two lines. */
  lemma CountTwo(p: string, q: string, c: char)
    requires '\n' !in p && c in p && c in q && !IsSpace(c)
    ensures Count(p + (['\n'] + q)) >= 2
  {
    var head := if p != [] && p[|p| - 1] == '\r' then p[..|p| - 1] else p;
    assert IsSpace('\r');
    assert p == head || p == head + ['\r'];
    SplitAtFeed(p, q, []);
    hide IsSpace, Split, Trimmed, Trim;
    assert [] + head == head;
    TrimmedJoined([head], Split(q, []));
    TrimKeeps(head, c);
    TrimmedSome([head], 0);
    CountSome(q, c);
  }

  // ----- Where a printed row breaks -----

  lemma {:induction false} DoubledSplits(text: string) returns (p: string, q: string)
    requires '\n' in text
    ensures Doubled(text) == p + (['\n'] + q) && '\n' !in p
  {
    var own := if text[0] == '"' then ['"', '"'] else [text[0]];
    if text[0] == '\n' {
      p, q := [], Doubled(text[1..]);
    } else {
      assert text == [text[0]] + text[1..];
      var r;
      r, q := DoubledSplits(text[1..]);
      p := own + r;
      assert own + (r + (['\n'] + q)) == p + (['\n'] + q);
    }
  }

  lemma {:induction false} DoubledFeed(text: string)
    requires '\n' !in text
    ensures '\n' !in Doubled(text)
  {
    if text != [] {
      assert text[0] in text && forall c :: c in text[1..] ==> c in text;
      DoubledFeed(text[1..]);
    }
  }

  lemma FieldFeed(text: string)
    requires '\n' !in text
    ensures '\n' !in Escaped(Some(text))
  {
    hide Doubled;
    DoubledFeed(text);
  }

  lemma FieldSplits(text: string) returns (p: string, q: string)
    requires '\n' in text
    ensures Escaped(Some(text)) == p + (['\n'] + q) && '\n' !in p && '"' in p && '"' in q
  {
    hide Doubled;
    assert Special('\n');
    var d, e := DoubledSplits(text);
    p, q := ['"'] + d, e + ['"'];
    assert ['"'] + (d + (['\n'] + e)) + ['"'] == p + (['\n'] + q);
    assert p[0] == '"' && q[|q| - 1] == '"';
  }

  lemma LineCons(row: seq<string>)
    requires |row| > 1
    ensures Line(row) == Escaped(Some(row[0])) + ([','] + Line(row[1..]))
  {
    hide Escaped;
    var some := (s: string) => Some(s);
    assert Map(some, row)[1..] == Map(some, row[1..]);
  }

  lemma LineOne(row: seq<string>)
    requires |row| == 1
    ensures Line(row) == Escaped(Some(row[0]))
  {
    hide Escaped;
  }

  lemma {:induction false} LineSplits(row: seq<string>) returns (p: string, q: string)
    requires HasLineFeed(row)
    ensures Line(row) == p + (['\n'] + q) && '\n' !in p && '"' in p && '"' in q
    decreases |row|
  {
    hide Escaped, Line;
    if '\n' in row[0] {
      p, q := FieldSplits(row[0]);
      if |row| == 1 {
        LineOne(row);
      } else {
        LineCons(row);
        var rest := [','] + Line(row[1..]);
        assert p + (['\n'] + q) + rest == p + (['\n'] + (q + rest));
        q := q + rest;
      }
    } else {
      var i :| 0 <= i < |row| && '\n' in row[i];
      assert row[1..][i - 1] == row[i];
      var r;
      r, q := LineSplits(row[1..]);
      LineCons(row);
      FieldFeed(row[0]);
      p := Escaped(Some(row[0])) + ([','] + r);
      assert Escaped(Some(row[0])) + ([','] + (r + (['\n'] + q))) == p + (['\n'] + q);
    }
  }

  lemma LineNone()
    ensures Line([]) == []
  {
  }

  lemma {:induction false} LineFeedFree(row: seq<string>)
    requires !HasLineFeed(row)
    ensures '\n' !in Line(row)
    decreases |row|
  {
    hide Escaped, Line;
    LineNone();
    if row != [] {
      FieldFeed(row[0]);
    }
    if row == [] {
    } else if |row| == 1 {
      LineOne(row);
    } else {
      LineCons(row);
      forall i | 0 <= i < |row[1..]|
        ensures '\n' !in row[1..][i]
      {
        assert row[1..][i] == row[i + 1];
      }
      LineFeedFree(row[1..]);
    }
  }

  // ----- The lines of a printed file -----

  /** The row does not print as a blank line, which the import drops. */
  predicate Visible(row: seq<string>) {
    Trim(Line(row)) != []
  }

  lemma EmptyRowIsBlank()
    ensures !Visible([])
  {
    assert Line([]) == [];
  }

  lemma VisibleCharacter(s: string) returns (c: char)
    requires Trim(s) != []
    ensures c in s && !IsSpace(c)
  {
    hide IsSpace;
    c := Trim(s)[0];
    var w := TrimStartSplits(s);
    var tail := TrimEndSplits(TrimStart(s));
    assert s == w + (Trim(s) + tail);
    assert TrimStart(s)[0] == c && s[|w|] == c;
  }

  lemma {:induction false} FileCount(rows: seq<seq<string>>)
    requires rows != [] && forall r :: 0 <= r < |rows| ==> Visible(rows[r])
    ensures Count(File(rows)) >= |rows|
    ensures (exists r :: 0 <= r < |rows| && HasLineFeed(rows[r])) ==> Count(File(rows)) > |rows|
    decreases |rows|
  {
    hide Line, IsSpace, Count, HasLineFeed, Trim;
    var c := VisibleCharacter(Line(rows[0]));
    CountSome(Line(rows[0]), c);
    if HasLineFeed(rows[0]) {
      assert !IsSpace('"') by { QuoteIsVisible(); }
      var p, q := LineSplits(rows[0]);
      CountTwo(p, q, '"');
    }
    if |rows| > 1 {
      FileCount(rows[1..]);
      CountJoined(Line(rows[0]), File(rows[1..]));
      forall r | 0 < r < |rows| && HasLineFeed(rows[r])
        ensures exists k :: 0 <= k < |rows[1..]| && HasLineFeed(rows[1..][k])
      {
        assert rows[1..][r - 1] == rows[r];
      }
    }
  }

  lemma QuoteIsVisible()
    ensures !IsSpace('"')
  {
  }

  lemma {:induction false} FileLines(rows: seq<seq<string>>)
    requires rows != [] && forall r :: 0 <= r < |rows| ==> !HasLineFeed(rows[r])
    ensures Split(File(rows), []) == Map(Line, rows)
    decreases |rows|
  {
    hide Line, Split, HasLineFeed;
    LineFeedFree(rows[0]);
    SplitWhole(Line(rows[0]), []);
    assert [] + Line(rows[0]) == Line(rows[0]);
    if |rows| == 1 {
      assert Map(Line, rows) == [Line(rows[0])];
    } else {
      SplitJoined(Line(rows[0]), File(rows[1..]), []);
      FileLines(rows[1..]);
      assert Map(Line, rows) == [Line(rows[0])] + Map(Line, rows[1..]);
    }
  }

  lemma {:induction false} SplitLead(text: string, w: string, line: string)
    ensures Split(text, line) != [] && Split(text, w + line) == [w + Split(text, line)[0]] + Split(text, line)[1..]
    decreases |text|
  {
    if text != [] && text[0] != '\n' && !(text[0] == '\r' && |text| > 1 && text[1] == '\n') {
      assert w + line + [text[0]] == w + (line + [text[0]]);
      SplitLead(text[1..], w, line + [text[0]]);
    }
  }

  /** The byte-order mark makes no difference to the trimmed lines. */
  lemma MarkDoesNotMatter(text: string)
    ensures Trimmed(Split(WithoutMark(text), [])) == Trimmed(Split(text, []))
  {
    if text != [] && text[0] == '\U{FEFF}' {
      var rest := text[1..];
      assert [] + [text[0]] == ['\U{FEFF}'] + [];
      assert Split(text, []) == Split(rest, ['\U{FEFF}'] + []);
      SplitLead(rest, ['\U{FEFF}'], []);
      var lines := Split(rest, []);
      TrimLead(['\U{FEFF}'], lines[0]);
      hide Split, Trim;
      assert Map(Trim, Split(text, [])) == Map(Trim, lines);
    }
  }

  lemma {:induction false} KeepsAll(lines: seq<string>)
    requires forall k :: 0 <= k < |lines| ==> Trim(lines[k]) != []
    ensures Trimmed(lines) == Map(Trim, lines)
  {
    hide Trim;
    FilterAll((l: string) => l != [], Map(Trim, lines));
  }

  /** One record for every line that is not blank. */
  lemma RecordCount(text: string)
    ensures |Records(text)| == Count(text)
  {
    hide Split, Trimmed, WithoutMark, Scan;
    MarkDoesNotMatter(text);
  }

  /** A blank line among them is one record fewer. */
  lemma {:induction false} BlankIsDropped(lines: seq<string>, k: nat)
    requires k < |lines| && Trim(lines[k]) == []
    ensures |Trimmed(lines)| < |lines|
  {
    hide Trim;
    assert lines == lines[..k] + ([lines[k]] + lines[k + 1..]);
    TrimmedJoined(lines[..k], [lines[k]] + lines[k + 1..]);
    TrimmedJoined([lines[k]], lines[k + 1..]);
    assert Trimmed([lines[k]]) == [];
  }

  // ----- The right delimiter -----

  lemma LineReadsBack(row: seq<string>)
    requires row != []
    ensures Scan(Trim(Line(row)), ',', [], false) == TrimmedRow(row)
  {
    hide Scan, Trim, IsSpace, Row;
    var values := Map((s: string) => Some(s), row);
    TrimKeepsFields(Line(row));
    RowRoundTrip(values);
    assert Map((v: Option<string>) => Trim(TextOf(v)), values) == TrimmedRow(row);
  }

  // ----- A wrong delimiter -----

  function Commas(s: string): nat {
    multiset(s)[',']
  }

  function CommasIn(values: seq<string>): nat {
    if values == [] then 0 else Commas(values[0]) + CommasIn(values[1..])
  }

  lemma CommasJoined(a: string, b: string)
    ensures Commas(a + b) == Commas(a) + Commas(b)
  {
  }

  lemma SpacesHoldNoComma(w: string)
    requires AllSpace(w)
    ensures Commas(w) == 0
  {
    assert ',' in multiset(w) ==> ',' in w;
  }

  lemma TrimKeepsCommas(s: string)
    ensures Commas(Trim(s)) == Commas(s)
  {
    hide Commas, AllSpace;
    var w := TrimStartSplits(s);
    var tail := TrimEndSplits(TrimStart(s));
    SpacesHoldNoComma(w);
    SpacesHoldNoComma(tail);
    CommasJoined(w, TrimStart(s));
    CommasJoined(Trim(s), tail);
  }

  lemma CommasHead(line: string)
    requires line != []
    ensures Commas(line) == Commas([line[0]]) + Commas(line[1..])
    ensures Commas(['"']) == 0 && Commas([',']) == 1
  {
    assert line == [line[0]] + line[1..];
  }

  /** Read with another delimiter, every comma of a line ends up in some field. */
  lemma {:induction false} ScanKeepsCommas(line: string, delimiter: char, value: string, quoted: bool)
    requires delimiter != ',' && delimiter != '"'
    ensures CommasIn(Scan(line, delimiter, value, quoted)) == Commas(line) + Commas(value)
    decreases |line|
  {
    hide Trim, Commas;
    TrimKeepsCommas(value);
    if line == [] {
      CommasOne(Trim(value));
      CommasNone();
    } else {
      CommasHead(line);
      CommasJoined(value, [line[0]]);
      if line[0] == '"' && quoted && |line| > 1 && line[1] == '"' {
        CommasHead(line[1..]);
        assert line[1..][1..] == line[2..];
        ScanKeepsCommas(line[2..], delimiter, value + ['"'], quoted);
      } else if line[0] == '"' {
        ScanKeepsCommas(line[1..], delimiter, value, !quoted);
      } else if line[0] == delimiter && !quoted {
        ScanKeepsCommas(line[1..], delimiter, [], quoted);
        CommasCons(Trim(value), Scan(line[1..], delimiter, [], quoted));
        CommasNone();
        CommaFree(delimiter);
      } else {
        ScanKeepsCommas(line[1..], delimiter, value + [line[0]], quoted);
      }
    }
  }

  lemma CommasNone()
    ensures Commas([]) == 0
  {
  }

  lemma CommaFree(c: char)
    requires c != ','
    ensures Commas([c]) == 0
  {
  }

  lemma CommasOne(s: string)
    ensures CommasIn([s]) == Commas(s)
  {
    assert CommasIn([s][1..]) == 0;
  }

  lemma CommasCons(s: string, values: seq<string>)
    ensures CommasIn([s] + values) == Commas(s) + CommasIn(values)
  {
    assert ([s] + values)[1..] == values;
  }

  lemma {:induction false} DoubledCommas(text: string)
    ensures Commas(Doubled(text)) == Commas(text)
  {
    if text != [] {
      var own := if text[0] == '"' then ['"', '"'] else [text[0]];
      DoubledCommas(text[1..]);
      CommasJoined(own, Doubled(text[1..]));
      CommasHead(text);
    }
  }

  lemma FieldCommas(text: string)
    ensures Commas(Escaped(Some(text))) == Commas(text)
  {
    hide Doubled, Commas;
    DoubledCommas(text);
    var open, close := ['"'], ['"'];
    CommaFree('"');
    CommasJoined(open, Doubled(text));
    CommasJoined(open + Doubled(text), close);
  }

  lemma {:induction false} LineCommas(row: seq<string>)
    requires row != []
    ensures Commas(Line(row)) == CommasIn(row) + |row| - 1
    decreases |row|
  {
    hide Escaped, Line, Commas;
    FieldCommas(row[0]);
    if |row| == 1 {
      LineOne(row);
      CommasOne(row[0]);
      assert row == [row[0]];
    } else {
      LineCons(row);
      LineCommas(row[1..]);
      CommasHead([',']);
      CommasJoined([','], Line(row[1..]));
      CommasJoined(Escaped(Some(row[0])), [','] + Line(row[1..]));
    }
  }

  lemma {:induction false} TrimmedCommas(row: seq<string>)
    ensures CommasIn(TrimmedRow(row)) == CommasIn(row)
    decreases |row|
  {
    hide Trim, Commas;
    if row != [] {
      TrimKeepsCommas(row[0]);
      TrimmedCommas(row[1..]);
      assert TrimmedRow(row)[1..] == TrimmedRow(row[1..]);
    }
  }

  /** So a row of several fields is not read back with it. */
  lemma SeveralFieldsDiffer(row: seq<string>, delimiter: char)
    requires |row| >= 2 && delimiter != ',' && delimiter != '"'
    ensures Scan(Trim(Line(row)), delimiter, [], false) != TrimmedRow(row)
  {
    hide Scan, Trim, Line, Commas, CommasIn;
    ScanKeepsCommas(Trim(Line(row)), delimiter, [], false);
    TrimKeepsCommas(Line(row));
    LineCommas(row);
    TrimmedCommas(row);
    CommasNone();
  }

  /** The printer puts the field in quotes. */
  predicate Quoted(text: string) {
    exists c :: c in text && Special(c)
  }

  lemma TrimNoop(s: string)
    requires s != [] && !IsSpace(s[0]) && !IsSpace(s[|s| - 1])
    ensures Trim(s) == s
  {
  }

  lemma TrimmedEnds(s: string)
    requires Trim(s) != []
    ensures !IsSpace(Trim(s)[0]) && !IsSpace(Trim(s)[|Trim(s)| - 1])
  {
    hide IsSpace;
    var tail := TrimEndSplits(TrimStart(s));
    assert TrimStart(s)[0] == Trim(s)[0];
  }

  lemma QuotedReadsBack(text: string, delimiter: char)
    requires Quoted(text) && delimiter != '"'
    ensures Scan(Trim(Escaped(Some(text))), delimiter, [], false) == [Trim(text)]
  {
    hide Doubled;
    var line := Escaped(Some(text));
    QuoteIsVisible();
    assert line == ['"'] + Doubled(text) + ['"'];
    assert line[0] == '"' && line[|line| - 1] == '"';
    TrimNoop(line);
    hide Trim, IsSpace;
    ScanQuoted(text, [], delimiter, []);
    assert line[1..] == Doubled(text) + (['"'] + []);
    assert [] + text == text;
    assert Scan(line, delimiter, [], false) == Scan(line[1..], delimiter, [], true);
  }

  lemma {:induction false} ScanIsNotEmpty(line: string, delimiter: char, value: string, quoted: bool)
    ensures Scan(line, delimiter, value, quoted) != []
    decreases |line|
  {
    hide Trim;
    if line != [] {
      if line[0] == '"' && quoted && |line| > 1 && line[1] == '"' {
        ScanIsNotEmpty(line[2..], delimiter, value + ['"'], quoted);
      } else if line[0] == '"' {
        ScanIsNotEmpty(line[1..], delimiter, value, !quoted);
      } else if line[0] != delimiter || quoted {
        ScanIsNotEmpty(line[1..], delimiter, value + [line[0]], quoted);
      }
    }
  }

  /** A delimiter in text without quotes cuts it. */
  lemma {:induction false} ScanCuts(text: string, delimiter: char, value: string)
    requires '"' !in text && delimiter in text
    ensures |Scan(text, delimiter, value, false)| >= 2
    decreases |text|
  {
    hide Trim;
    assert text[0] in text && text == [text[0]] + text[1..];
    if text[0] == delimiter {
      ScanIsNotEmpty(text[1..], delimiter, [], false);
    } else {
      ScanCuts(text[1..], delimiter, value + [text[0]]);
    }
  }

  lemma TrimWithin(s: string)
    ensures forall c :: c in Trim(s) ==> c in s
  {
    hide IsSpace;
    var w := TrimStartSplits(s);
    var tail := TrimEndSplits(TrimStart(s));
    assert s == w + (Trim(s) + tail);
  }

  lemma PlainReadsBack(text: string, delimiter: char)
    requires !Quoted(text) && delimiter != '"' && Trim(text) != []
    ensures Scan(Trim(text), delimiter, [], false) == [Trim(text)] <==> delimiter !in Trim(text)
  {
    var core := Trim(text);
    assert '"' !in text by { assert Special('"'); }
    TrimWithin(text);
    TrimmedEnds(text);
    TrimNoop(core);
    hide Trim, IsSpace, Quoted;
    if delimiter in core {
      ScanCuts(core, delimiter, []);
    } else {
      ScanPlain(core, [], delimiter, []);
      assert core + [] == core && [] + core == core;
    }
  }

  /** The row is one field that the delimiter does not cut. */
  predicate OneField(row: seq<string>, delimiter: char) {
    |row| == 1 && (Quoted(row[0]) || delimiter !in Trim(row[0]))
  }

  /** When a row is read back with the delimiter chosen for the file. */
  lemma RowFits(row: seq<string>, delimiter: char)
    requires Visible(row) && delimiter != '"'
    ensures Scan(Trim(Line(row)), delimiter, [], false) == TrimmedRow(row)
       <==> delimiter == ',' || OneField(row, delimiter)
  {
    hide Scan, Trim, Line, Quoted, Escaped;
    if row == [] {
      EmptyRowIsBlank();
    } else if delimiter == ',' {
      LineReadsBack(row);
    } else if |row| >= 2 {
      SeveralFieldsDiffer(row, delimiter);
    } else {
      LineOne(row);
      assert TrimmedRow(row) == [Trim(row[0])];
      if Quoted(row[0]) {
        QuotedReadsBack(row[0], delimiter);
      } else {
        PlainField(row[0]);
        PlainReadsBack(row[0], delimiter);
      }
    }
  }

  lemma PlainField(text: string)
    requires !Quoted(text)
    ensures Escaped(Some(text)) == text
  {
  }

  // ----- The whole file -----

  /** The first line, trimmed, chooses the delimiter; another than the comma suits one-field rows only. */
  predicate DelimiterFits(rows: seq<seq<string>>)
    requires rows != []
  {
    var delimiter := Delimiter(Trim(Line(rows[0])));
    delimiter == ',' || forall r :: 0 <= r < |rows| ==> OneField(rows[r], delimiter)
  }

  predicate NoLineFeeds(rows: seq<seq<string>>) {
    forall r :: 0 <= r < |rows| ==> !HasLineFeed(rows[r])
  }

  predicate AllVisible(rows: seq<seq<string>>) {
    forall r :: 0 <= r < |rows| ==> Visible(rows[r])
  }

  /** Without line feeds and blank rows, the records are the rows read one by one. */
  lemma RecordsAreRows(rows: seq<seq<string>>)
    requires rows != [] && NoLineFeeds(rows) && AllVisible(rows)
    ensures Records(File(rows)) == Map(TrimmedRow, rows) <==> DelimiterFits(rows)
  {
    hide Line, Split, Scan, Trim, HasLineFeed, WithoutMark, TrimmedRow, File, Trimmed, OneField, Delimiter;
    var text := File(rows);
    MarkDoesNotMatter(text);
    FileLines(rows);
    KeepsAll(Map(Line, rows));
    var lines := Map(Trim, Map(Line, rows));
    var delimiter := Delimiter(lines[0]);
    assert delimiter != '"' by { DelimiterIsNoQuote(lines[0]); }
    var records := Records(text);
    assert |records| == |rows|;
    forall r | 0 <= r < |rows|
      ensures records[r] == TrimmedRow(rows[r]) <==> delimiter == ',' || OneField(rows[r], delimiter)
    {
      RowFits(rows[r], delimiter);
    }
    if records == Map(TrimmedRow, rows) {
      forall r | 0 <= r < |rows|
        ensures records[r] == TrimmedRow(rows[r])
      {
        assert records[r] == Map(TrimmedRow, rows)[r];
      }
    }
  }

  lemma DelimiterIsNoQuote(line: string)
    ensures Delimiter(line) != '"'
  {
  }

  /**
   * A file printed row by row is read back, field by field but for white space at their
   * ends: among files whose rows all print as visible lines, exactly when no field holds
   * a line feed, which the printer's quotes do not protect, and the first line suggests
   * no wrong delimiter; among files without line feeds, exactly when moreover no row
   * prints as a blank line.
   */
  lemma FileRoundTrip(rows: seq<seq<string>>)
    requires rows != []
    ensures AllVisible(rows) ==>
              (Records(File(rows)) == Map(TrimmedRow, rows) <==> NoLineFeeds(rows) && DelimiterFits(rows))
    ensures NoLineFeeds(rows) ==>
              (Records(File(rows)) == Map(TrimmedRow, rows) <==> AllVisible(rows) && DelimiterFits(rows))
  {
    hide Line, Split, Scan, Trim, HasLineFeed, TrimmedRow, File, Records, Trimmed, DelimiterFits, Visible;
    var text := File(rows);
    RecordCount(text);
    if AllVisible(rows) && NoLineFeeds(rows) {
      RecordsAreRows(rows);
    } else if AllVisible(rows) {
      FileCount(rows);
    } else if NoLineFeeds(rows) {
      FileLines(rows);
      var r :| 0 <= r < |rows| && !Visible(rows[r]);
      BlankRow(rows[r]);
      BlankIsDropped(Map(Line, rows), r);
    }
  }

  lemma BlankRow(row: seq<string>)
    requires !Visible(row)
    ensures Trim(Line(row)) == []
  {
  }

  // ----- Both a line feed and a blank row -----

  /** A field that a line feed cuts in two, and a row that prints blank. */
  function CutAndBlank(tail: string): seq<seq<string>> {
    [[['p', '\n'] + tail], [[]]]
  }

  lemma CutLine(tail: string)
    requires tail == [] || tail == ['q']
    ensures Line([['p', '\n'] + tail]) == ['"', 'p', '\n'] + (tail + ['"'])
  {
    var text := ['p', '\n'] + tail;
    LineOne([text]);
    assert '\n' in text && Special('\n');
    assert text[1..] == ['\n'] + tail && text[1..][1..] == tail;
    assert Doubled(tail) == tail by {
      assert tail != [] ==> tail[1..] == [];
    }
    assert Doubled(text) == text;
  }

  lemma CutFile(tail: string)
    requires tail == [] || tail == ['q']
    ensures Split(File(CutAndBlank(tail)), []) == [['"', 'p'], tail + ['"'], []]
  {
    var rows := CutAndBlank(tail);
    CutLine(tail);
    LineOne([[]]);
    assert rows[1..] == [[[]]] && Escaped(Some([])) == [];
    var first := ['"', 'p', '\n'] + (tail + ['"']);
    assert File(rows) == first + (CRLF + []);
    SplitJoined(first, [], []);
    assert first[3..] == tail + ['"'];
    NoFeeds(tail + ['"'], []);
    NoFeeds([], []);
    SplitThird(first);
    hide Split;
    assert [] + (tail + ['"']) == tail + ['"'];
    assert [['"', 'p']] + [tail + ['"']] + [[]] == [['"', 'p'], tail + ['"'], []];
  }

  lemma SplitThird(text: string)
    requires |text| > 2 && text[0] == '"' && text[1] == 'p' && text[2] == '\n'
    ensures Split(text, []) == [['"', 'p']] + Split(text[3..], [])
  {
    assert [] + [text[0]] == ['"'] && ['"'] + [text[1]] == ['"', 'p'];
    assert Split(text, []) == Split(text[1..], ['"']) == Split(text[1..][1..], ['"', 'p']);
    assert text[1..][1..][1..] == text[3..];
  }

  lemma {:induction false} NoFeeds(text: string, line: string)
    requires '\n' !in text
    ensures Split(text, line) == [line + text]
    decreases |text|
  {
    if text != [] {
      NoFeeds(text[1..], line + [text[0]]);
      assert line + [text[0]] + text[1..] == line + text;
    } else {
      assert line + text == line;
    }
  }

  lemma ScanCut(text: string)
    requires |text| == 1 && !IsSpace(text[0]) && text[0] != '"' && text[0] != ','
    ensures Scan(['"'] + text, ',', [], false) == [text] && Scan(text + ['"'], ',', [], false) == [text]
    ensures Scan(['"'], ',', [], false) == [[]]
    ensures Trim(['"'] + text) == ['"'] + text && Trim(text + ['"']) == text + ['"'] && Trim(['"']) == ['"']
  {
    var a, b := ['"'] + text, text + ['"'];
    assert a[1..] == text && text[1..] == [] && b[1..] == ['"'] && ['"'][1..] == [] && [] + text == text;
    assert Trim(text) == text && Trim([]) == [];
    assert [] + [text[0]] == text;
    assert Scan(text, ',', [], true) == Scan(text[1..], ',', [] + [text[0]], true) == [text];
    assert Scan(b, ',', [], false) == Scan(['"'], ',', text, false) == Scan([], ',', text, true) == [text];
  }

  lemma CutRecords(tail: string)
    requires tail == [] || tail == ['q']
    ensures Records(File(CutAndBlank(tail))) == [[['p']], [tail]]
  {
    hide Split, File, Scan, Trim, CutAndBlank, WithoutMark;
    var lines := [['"', 'p'], tail + ['"'], []];
    CutFile(tail);
    MarkDoesNotMatter(File(CutAndBlank(tail)));
    ScanCut(['p']);
    ScanCut(['q']);
    assert ['"'] + ['p'] == ['"', 'p'];
    assert tail == [] ==> tail + ['"'] == ['"'];
    TrimNothing();
    var kept := [['"', 'p'], tail + ['"']];
    assert Map(Trim, lines) == kept + [[]];
    KeepsTwo(kept[0], kept[1]);
    var records := Records(File(CutAndBlank(tail)));
    assert records == [[['p']], [tail]];
  }

  lemma TrimNothing()
    ensures Trim([]) == []
  {
  }

  lemma KeepsTwo(a: string, b: string)
    requires a != [] && b != []
    ensures Filter((l: string) => l != [], [a, b] + [[]]) == [a, b]
  {
    var keep := (l: string) => l != [];
    assert [a, b] + [[]] == [a] + ([b] + ([[]] + []));
    FilterCons(keep, a, [b] + ([[]] + []));
    FilterCons(keep, b, [[]] + []);
    FilterCons(keep, [], []);
  }

  /**
   * With both, the rest of a cut field can stand in for the blank row, so such files may
   * be read back and may not be.
   */
  lemma CutAndBlankVaries()
    ensures var rows := CutAndBlank([]);
            !NoLineFeeds(rows) && !AllVisible(rows) && Records(File(rows)) == Map(TrimmedRow, rows)
    ensures var rows := CutAndBlank(['q']);
            !NoLineFeeds(rows) && !AllVisible(rows) && Records(File(rows)) != Map(TrimmedRow, rows)
  {
    hide File, Records, Trim, Line;
    CutRecords([]);
    CutRecords(['q']);
    CutIsBoth([]);
    CutIsBoth(['q']);
    TrimNothing();
    assert TrimmedRow([[]]) == [[]];
    TrimFeed();
    assert ['p', '\n'] + [] == ['p', '\n'];
    assert TrimmedRow([['p', '\n']]) == [['p']];
    assert Map(TrimmedRow, CutAndBlank([])) == [[['p']], [[]]];
    assert Map(TrimmedRow, CutAndBlank(['q']))[1] == [[]];
  }

  lemma TrimFeed()
    ensures Trim(['p', '\n']) == ['p']
  {
    assert ['p', '\n'][..1] == ['p'];
    assert TrimStart(['p', '\n']) == ['p', '\n'];
    assert TrimEnd(['p', '\n']) == TrimEnd(['p']) == ['p'];
  }

  lemma CutIsBoth(tail: string)
    ensures !NoLineFeeds(CutAndBlank(tail)) && !AllVisible(CutAndBlank(tail))
  {
    var rows := CutAndBlank(tail);
    assert rows[0][0][1] == '\n';
    assert HasLineFeed(rows[0]);
    LineOne([[]]);
    assert rows[1] == [[]] && Trim([]) == [] && !Visible(rows[1]);
  }
}
