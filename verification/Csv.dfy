/**
 * The CSV printer of the report exporter and the quoted-field parser of the contact
 * import, which agree on section 2 of RFC 4180.
 */
module Csv {
  import opened Basics
  import opened Text

  // ----- Printing -----

  predicate Special(c: char) {
    c == '"' || c == ',' || c == '\r' || c == '\n'
  }

  function Doubled(text: string): string {
    if text == [] then []
    else (if text[0] == '"' then ['"', '"'] else [text[0]]) + Doubled(text[1..])
  }

  /** `escapeCsv`; None is a null or undefined value. */
  function Escaped(value: Option<string>): string {
    match value
    case None => []
    case Some(text) =>
      if exists c :: c in text && Special(c) then ['"'] + Doubled(text) + ['"'] else text
  }

  /** The row: every field escaped, joined by commas. */
  function Row(values: seq<Option<string>>): string {
    if values == [] then []
    else if |values| == 1 then Escaped(values[0])
    else Escaped(values[0]) + ([','] + Row(values[1..]))
  }

  /** How often a character occurs in a text. */
  function Occurs(text: string, c: char): nat {
    multiset(text)[c]
  }

  lemma {:induction false} DoubledMeaning(text: string, c: char)
    ensures Occurs(Doubled(text), c) == if c == '"' then 2 * Occurs(text, c) else Occurs(text, c)
    ensures |Doubled(text)| == |text| + Occurs(text, '"')
  {
    if text != [] {
      DoubledMeaning(text[1..], c);
      assert text == [text[0]] + text[1..];
    }
  }

  /** A field is quoted exactly when it holds a quote, a comma or a line break; its quotes are then doubled. */
  lemma EscapedMeaning(text: string)
    ensures var plain := forall c :: c in text ==> c !in ['"', ',', '\r', '\n'];
            && (plain ==> Escaped(Some(text)) == text)
            && (!plain ==>
                  var r := Escaped(Some(text));
                  && |r| == |text| + Occurs(text, '"') + 2 && r[0] == r[|r| - 1] == '"'
                  && Occurs(r, '"') == 2 * Occurs(text, '"') + 2)
    ensures Escaped(None) == []
  {
    DoubledMeaning(text, '"');
    hide Doubled;
  }

  // ----- Parsing -----

  /** The values of the rest of a line, given the value being read and the quote state. */
  function Scan(line: string, delimiter: char, value: string, quoted: bool): seq<string>
    decreases |line|
  {
    if line == [] then [Trim(value)]
    else if line[0] == '"' then
      if quoted && |line| > 1 && line[1] == '"' then Scan(line[2..], delimiter, value + ['"'], quoted)
      else Scan(line[1..], delimiter, value, !quoted)
    else if line[0] == delimiter && !quoted then [Trim(value)] + Scan(line[1..], delimiter, [], quoted)
    else Scan(line[1..], delimiter, value + [line[0]], quoted)
  }

  method ParseDelimited(line: string, delimiter: char) returns (values: seq<string>)
    ensures values == Scan(line, delimiter, [], false)
  {
    hide Trim;
    values := [];
    var value, quoted, i := [], false, 0;
    assert line[0..] == line;
    while i < |line|
      invariant 0 <= i <= |line|
      invariant Scan(line, delimiter, [], false) == values + Scan(line[i..], delimiter, value, quoted)
    {
      var c := line[i];
      assert line[i..][0] == c && line[i..][1..] == line[i + 1..];
      if c == '"' {
        if quoted && i + 1 < |line| && line[i + 1] == '"' {
          assert line[i..][2..] == line[i + 2..];
          value := value + ['"'];
          i := i + 1;
        } else {
          quoted := !quoted;
        }
      } else if c == delimiter && !quoted {
        values := values + [Trim(value)];
        value := [];
      } else {
        value := value + [c];
      }
      i := i + 1;
    }
    values := values + [Trim(value)];
  }

  // ----- Round trip -----

  /** Text without quotes or delimiters is read as it stands. */
  lemma {:induction false} ScanPlain(text: string, rest: string, delimiter: char, value: string)
    requires forall c :: c in text ==> c != '"' && c != delimiter
    ensures Scan(text + rest, delimiter, value, false) == Scan(rest, delimiter, value + text, false)
  {
    hide Trim;
    if text == [] {
      assert text + rest == rest && value + text == value;
    } else {
      assert (text + rest)[1..] == text[1..] + rest;
      assert text[0] in text && (text + rest)[0] == text[0] && forall c :: c in text[1..] ==> c in text;
      ScanPlain(text[1..], rest, delimiter, value + [text[0]]);
      assert value + [text[0]] + text[1..] == value + text;
    }
  }

  /** Inside quotes, doubled text up to a closing quote reads back as the text. */
  lemma {:induction false} ScanQuoted(text: string, rest: string, delimiter: char, value: string)
    requires rest == [] || rest[0] != '"'
    ensures Scan(Doubled(text) + (['"'] + rest), delimiter, value, true) == Scan(rest, delimiter, value + text, false)
  {
    hide Trim;
    var close := ['"'] + rest;
    var line := Doubled(text) + close;
    if text == [] {
      assert line == close && close[1..] == rest && value + text == value;
    } else {
      DoubledHead(text, close);
      hide Doubled;
      ScanQuoted(text[1..], rest, delimiter, value + [text[0]]);
      assert value + [text[0]] + text[1..] == value + text;
      if text[0] == '"' {
        assert line[0] == line[..2][0] == '"' && line[1] == line[..2][1] == '"';
      } else {
        assert line[0] == line[..1][0] == text[0];
      }
    }
  }

  lemma Regrouped(head: string, rest: string, close: string)
    ensures var line := head + rest + close;
            |line| >= |head| && line[..|head|] == head && line[|head|..] == rest + close
  {
  }

  /** How a doubled text begins. */
  lemma DoubledHead(text: string, close: string)
    requires text != []
    ensures var line, more := Doubled(text) + close, Doubled(text[1..]) + close;
            if text[0] == '"' then |line| > 1 && line[..2] == ['"', '"'] && line[2..] == more
            else line != [] && line[..1] == [text[0]] && line[1..] == more
  {
    var head := if text[0] == '"' then ['"', '"'] else [text[0]];
    Regrouped(head, Doubled(text[1..]), close);
  }

  lemma PlainText(text: string)
    requires forall c :: c in text ==> !Special(c)
    ensures forall c :: c in text ==> c != '"' && c != ','
  {
    forall c | c in text
      ensures c != '"' && c != ','
    {
      assert !Special(c);
    }
  }

  function TextOf(value: Option<string>): string {
    match value
    case None => []
    case Some(text) => text
  }

  /** A printed field is read back whole, up to the delimiter or the end of the line. */
  lemma ScanField(value: Option<string>, rest: string)
    requires rest == [] || rest[0] == ','
    ensures Scan(Escaped(value) + rest, ',', [], false) == Scan(rest, ',', TextOf(value), false)
  {
    hide Trim, Doubled;
    var text := TextOf(value);
    if exists c :: c in text && Special(c) {
      ScanEscaped(text, rest);
    } else {
      assert forall c :: c in text ==> !Special(c);
      PlainText(text);
      ScanPlain(text, rest, ',', []);
      hide Scan;
      assert [] + text == text;
      assert Escaped(value) == text;
    }
  }

  lemma ScanEscaped(text: string, rest: string)
    requires (rest == [] || rest[0] == ',') && exists c :: c in text && Special(c)
    ensures Scan(Escaped(Some(text)) + rest, ',', [], false) == Scan(rest, ',', text, false)
  {
    hide Trim, Doubled;
    var line := Escaped(Some(text)) + rest;
    assert line[0] == '"' && line[1..] == Doubled(text) + (['"'] + rest);
    assert Scan(line, ',', [], false) == Scan(line[1..], ',', [], true);
    hide Scan, Escaped, Special;
    ScanQuoted(text, rest, ',', []);
    assert [] + text == text;
  }

  /**
   * Parsing a printed row gives every field back, trimmed, whatever commas, quotes and
   * line breaks the fields hold.
   */
  lemma {:induction false} RowRoundTrip(values: seq<Option<string>>)
    requires values != []
    ensures Scan(Row(values), ',', [], false) == Map((v: Option<string>) => Trim(TextOf(v)), values)
  {
    hide Trim, Escaped;
    var f := (v: Option<string>) => Trim(TextOf(v));
    if |values| == 1 {
      ScanField(values[0], []);
      assert Escaped(values[0]) + [] == Escaped(values[0]);
      assert Map(f, values) == [f(values[0])];
    } else {
      var rest := Row(values[1..]);
      var tail := [','] + rest;
      ScanField(values[0], tail);
      assert tail[1..] == rest;
      RowRoundTrip(values[1..]);
      assert Map(f, values) == [f(values[0])] + Map(f, values[1..]);
    }
  }

  /** The fields come back unchanged exactly when none has white space at its ends. */
  lemma RowVerbatim(fields: seq<string>)
    requires fields != []
    ensures Scan(Row(Map((s: string) => Some(s), fields)), ',', [], false) == fields
       <==> forall i :: 0 <= i < |fields| ==> Trim(fields[i]) == fields[i]
  {
    hide Trim, Scan, Row;
    RowRoundTrip(Map((s: string) => Some(s), fields));
  }
}
