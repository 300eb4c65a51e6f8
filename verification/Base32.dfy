/**
 * The unpadded Base32 codec of authenticator secrets: the source's loops over its
 * unmasked accumulator compute the bit-stream reference, and its text form round-trips.
 */
module Base32 {
  import opened Accumulator
  import opened Basics
  import opened BitStreams
  import opened Text

  const ALPHABET := "ABCDEFGHIJKLMNOPQRSTUVWXYZ234567"

  // ----- What the loops keep -----

  lemma {:induction false} ZeroBits(k: nat)
    ensures ToBits(0, k) == Zeros(k)
  {
    if k > 0 {
      ZeroBits(k - 1);
    }
  }

  lemma StreamSnoc(digits: seq<nat>, i: nat, width: nat)
    requires i < |digits|
    requires forall j :: 0 <= j < |digits| ==> digits[j] < Pow2(width)
    ensures Stream(digits[..i + 1], width) == Stream(digits[..i], width) + ToBits(digits[i], width)
  {
    assert digits[..i + 1] == digits[..i] + [digits[i]];
    StreamConcat(digits[..i], [digits[i]], width);
    StreamOne(digits[i], width);
  }

  lemma StreamOne(v: nat, width: nat)
    requires v < Pow2(width)
    ensures Stream([v], width) == ToBits(v, width)
  {
    assert Stream([v][1..], width) == [];
  }

  lemma Regroup(a: seq<Bit>, b: seq<Bit>, c: seq<Bit>)
    ensures a + (b + c) == (a + b) + c
  {
  }

  /** Moving one group from the pending bits to the output keeps the bit stream. */
  lemma StreamPush(out: seq<nat>, group: seq<Bit>, rest: seq<Bit>)
    requires forall j :: 0 <= j < |out| ==> out[j] < Pow2(|group|)
    ensures Stream(out, |group|) + (group + rest) == Stream(out + [Value(group)], |group|) + rest
  {
    hide *;
    ToBitsOfValue(group);
    StreamOne(Value(group), |group|);
    StreamConcat(out, [Value(group)], |group|);
    Regroup(Stream(out, |group|), group, rest);
  }

  /** What both loops keep: `all` has been read, `out` written, `pending` is in the word. */
  ghost predicate Tracks(acc: Word, pending: seq<Bit>, out: seq<nat>, width: nat, all: seq<Bit>) {
    && Holds(acc, pending)
    && (forall j :: 0 <= j < |out| ==> out[j] < Pow2(width))
    && all == Stream(out, width) + pending
  }

  lemma TracksPush(acc: Word, pending: seq<Bit>, out: seq<nat>, width: nat, all: seq<Bit>, v: nat, k: nat)
    requires Tracks(acc, pending, out, width, all)
    requires |pending| + k <= 32 && v < Pow2(k)
    ensures Tracks(ShiftIn(acc, v, k), pending + ToBits(v, k), out, width, all + ToBits(v, k))
  {
    PushBits(acc, pending, v, k);
    Regroup(Stream(out, width), pending, ToBits(v, k));
  }

  lemma TracksPop(acc: Word, pending: seq<Bit>, out: seq<nat>, width: nat, all: seq<Bit>)
    requires Tracks(acc, pending, out, width, all) && width <= |pending|
    ensures Tracks(acc, pending[width..],
                   out + [ShiftRight(acc, |pending| - width) % Pow2(width)], width, all)
  {
    hide Stream, Value, Pow2, ShiftRight;
    PopBits(acc, pending, width);
    StreamPush(out, pending[..width], pending[width..]);
    assert pending == pending[..width] + pending[width..];
  }

  lemma TracksStart(digits: seq<nat>, k: nat)
    requires forall j :: 0 <= j < |digits| ==> digits[j] < Pow2(k)
    ensures forall width :: Tracks(0, [], [], width, Stream(digits[..0], k))
  {
  }

  lemma EncodedUnique(value: seq<Byte>, symbols: seq<Symbol>, pad: seq<Bit>)
    requires |pad| < 5 && pad == Zeros(|pad|)
    requires Pow2(8) == 256 && Pow2(5) == 32 && Stream(value, 8) + pad == Stream(symbols, 5)
    ensures symbols == Encoded(value)
  {
    hide Stream, Groups, Value, ToBits, Pow2, Encoded, Zeros;
    StreamLength5(symbols);
    assert |Stream(value, 8)| + |pad| == |Stream(symbols, 5)| == 5 * |symbols|;
    SamePadding(|Stream(value, 8)|, pad);
    StreamOfEncoded(value);
    StreamInjective(symbols, Encoded(value));
  }

  lemma ShiftRightZero(x: Word)
    ensures ShiftRight(x, 0) == x
  {
  }

  /** The closing `accumulator << (5 - bits)` of the encoder pads with zero bits. */
  lemma TracksPad(acc: Word, pending: seq<Bit>, out: seq<Symbol>, all: seq<Bit>)
    requires Pow2(5) == 32 && 0 < |pending| < 5 && Tracks(acc, pending, out, 5, all)
    ensures var k := 5 - |pending|;
            all + Zeros(k) == Stream(out + [ShiftIn(acc, 0, k) % 32], 5)
  {
    hide Holds, Stream, ShiftIn, ShiftRight, Zeros, Value, Pow2;
    var k := 5 - |pending|;
    var pad, word := ToBits(0, k), ShiftIn(acc, 0, k);
    TracksPush(acc, pending, out, 5, all, 0, k);
    TracksPop(word, pending + pad, out, 5, all + pad);
    ShiftRightZero(word);
    ZeroBits(k);
    assert (pending + pad)[5..] == [];
  }

  lemma TracksEncoded(acc: Word, pending: seq<Bit>, out: seq<Symbol>, value: seq<Byte>)
    requires Pow2(8) == 256 && Pow2(5) == 32
    requires |pending| < 5 && Tracks(acc, pending, out, 5, Stream(value, 8))
    ensures pending == [] ==> out == Encoded(value)
    ensures pending != [] ==> out + [ShiftIn(acc, 0, 5 - |pending|) % 32] == Encoded(value)
  {
    hide Holds, Stream, Groups, ShiftIn, Encoded;
    if pending == [] {
      EncodedUnique(value, out, []);
    } else {
      var k := 5 - |pending|;
      TracksPad(acc, pending, out, Stream(value, 8));
      EncodedUnique(value, out + [ShiftIn(acc, 0, k) % 32], Zeros(k));
    }
  }

  lemma TracksDecoded(acc: Word, pending: seq<Bit>, out: seq<Byte>, symbols: seq<Symbol>)
    requires Pow2(8) == 256 && Pow2(5) == 32
    requires |pending| < 8 && Tracks(acc, pending, out, 8, Stream(symbols, 5))
    ensures out == Decoded(symbols)
  {
    GroupsOfStream(out, pending, 8);
  }

  // ----- The loops of the source -----

  /** The five-bit values that `base32Encode` looks up, one per output character. */
  method EncodeSymbols(value: seq<Byte>) returns (symbols: seq<Symbol>)
    ensures symbols == Encoded(value)
  {
    hide *;
    Pow2Values();
    var bits, accumulator: Word := 0, 0;
    symbols := [];
    ghost var pending: seq<Bit>, all := [], Stream(value[..0], 8);
    TracksStart(value, 8);
    for i := 0 to |value|
      invariant bits == |pending| < 5
      invariant all == Stream(value[..i], 8)
      invariant Tracks(accumulator, pending, symbols, 5, all)
    {
      ghost var more := ToBits(value[i], 8);
      TracksPush(accumulator, pending, symbols, 5, all, value[i], 8);
      StreamSnoc(value, i, 8);
      accumulator := ShiftIn(accumulator, value[i], 8);
      bits, pending, all := bits + 8, pending + more, all + more;
      while bits >= 5
        invariant bits == |pending| <= 12
        invariant Tracks(accumulator, pending, symbols, 5, all)
      {
        TracksPop(accumulator, pending, symbols, 5, all);
        bits, pending := bits - 5, pending[5..];
        symbols := symbols + [ShiftRight(accumulator, bits) % 32];
      }
    }
    assert value[..|value|] == value;
    TracksEncoded(accumulator, pending, symbols, value);
    if bits > 0 {
      symbols := symbols + [ShiftIn(accumulator, 0, 5 - bits) % 32];
    }
  }

  /** The bytes that `base32Decode` collects from the alphabet positions. */
  method DecodeSymbols(symbols: seq<Symbol>) returns (bytes: seq<Byte>)
    ensures bytes == Decoded(symbols)
  {
    hide *;
    Pow2Values();
    var bits, accumulator: Word := 0, 0;
    bytes := [];
    ghost var pending: seq<Bit>, all := [], Stream(symbols[..0], 5);
    TracksStart(symbols, 5);
    for i := 0 to |symbols|
      invariant bits == |pending| < 8
      invariant all == Stream(symbols[..i], 5)
      invariant Tracks(accumulator, pending, bytes, 8, all)
    {
      ghost var more := ToBits(symbols[i], 5);
      TracksPush(accumulator, pending, bytes, 8, all, symbols[i], 5);
      StreamSnoc(symbols, i, 5);
      accumulator := ShiftIn(accumulator, symbols[i], 5);
      bits, pending, all := bits + 5, pending + more, all + more;
      if bits >= 8 {
        TracksPop(accumulator, pending, bytes, 8, all);
        bits, pending := bits - 8, pending[8..];
        bytes := bytes + [ShiftRight(accumulator, bits) % 256];
      }
    }
    assert symbols[..|symbols|] == symbols;
    TracksDecoded(accumulator, pending, bytes, symbols);
  }

  // ----- Text -----

  function IndexOf(s: string, c: char): (i: int)
    ensures i == -1 <==> c !in s
    ensures i != -1 ==> 0 <= i < |s| && s[i] == c
  {
    if s == [] then -1
    else if s[0] == c then 0
    else var i := IndexOf(s[1..], c); if i == -1 then -1 else i + 1
  }

  function Letter(v: Symbol): char {
    ALPHABET[v]
  }

  lemma AlphabetLetters(v: Symbol)
    ensures Letter(v) == if v < 26 then ('A' as int + v) as char else ('2' as int + v - 26) as char
  {
  }

  lemma LetterInjective(v: Symbol)
    ensures Letter(v) in ALPHABET && IndexOf(ALPHABET, Letter(v)) == v
  {
    AlphabetLetters(v);
    AlphabetLetters(IndexOf(ALPHABET, Letter(v)));
  }

  /**
   * `toUpperCase` as far as the alphabet can tell: besides the small letters, these are
   * the characters whose upper case is made of plain letters alone. The upper case of any
   * other character holds one outside the alphabet, as the character itself is.
   */
  function UpperCase(c: char): string {
    if 'a' <= c <= 'z' then [(c as int - 32) as char]
    else match c
      case '\U{DF}' => "SS"
      case '\U{131}' => "I"
      case '\U{17F}' => "S"
      case '\U{FB00}' => "FF"
      case '\U{FB01}' => "FI"
      case '\U{FB02}' => "FL"
      case '\U{FB03}' => "FFI"
      case '\U{FB04}' => "FFL"
      case '\U{FB05}' => "ST"
      case '\U{FB06}' => "ST"
      case _ => [c]
  }

  function UpperText(value: string): string {
    if value == [] then [] else UpperCase(value[0]) + UpperText(value[1..])
  }

  /** What `base32Decode` drops: padding, white space and the dashes people type. */
  predicate Significant(c: char) {
    c != '=' && c != '-' && !IsSpace(c)
  }

  function Normalized(value: string): string {
    Filter(Significant, UpperText(value))
  }

  function EncodedText(bytes: seq<Byte>): string {
    Map(Letter, Encoded(bytes))
  }

  function DecodedText(value: string): Result<seq<Byte>> {
    var normalized := Normalized(value);
    if normalized == [] || exists c :: c in normalized && c !in ALPHABET then
      Err("Invalid authenticator secret")
    else
      Ok(Decoded(Positions(normalized)))
  }

  function Positions(letters: string): (symbols: seq<Symbol>)
    requires forall c :: c in letters ==> c in ALPHABET
    ensures |symbols| == |letters|
    ensures forall i :: 0 <= i < |letters| ==> symbols[i] == IndexOf(ALPHABET, letters[i])
  {
    seq(|letters|, i requires 0 <= i < |letters| => IndexOf(ALPHABET, letters[i]))
  }

  method Encode(value: seq<Byte>) returns (result: string)
    ensures result == EncodedText(value)
  {
    var symbols := EncodeSymbols(value);
    result := Map(Letter, symbols);
  }

  method Decode(value: string) returns (result: Result<seq<Byte>>)
    ensures result == DecodedText(value)
  {
    var normalized := Normalized(value);
    if normalized == [] || exists c :: c in normalized && c !in ALPHABET {
      return Err("Invalid authenticator secret");
    }
    var bytes := DecodeSymbols(Positions(normalized));
    return Ok(bytes);
  }

  lemma {:induction false} UpperIsSame(text: string)
    requires forall i :: 0 <= i < |text| ==> UpperCase(text[i]) == [text[i]]
    ensures UpperText(text) == text
  {
    hide UpperCase;
    if text != [] {
      UpperIsSame(text[1..]);
      assert text == [text[0]] + text[1..];
    }
  }

  lemma LetterIsPlain(v: Symbol)
    ensures UpperCase(Letter(v)) == [Letter(v)] && Significant(Letter(v))
  {
    AlphabetLetters(v);
    hide Letter;
  }

  /** Encoded text survives the clean-up of the decoder unchanged. */
  lemma NormalizedEncodedText(bytes: seq<Byte>)
    ensures Normalized(EncodedText(bytes)) == EncodedText(bytes)
  {
    hide UpperCase, UpperText, Significant, Letter, Encoded, Filter;
    var text := EncodedText(bytes);
    forall i | 0 <= i < |text|
      ensures UpperCase(text[i]) == [text[i]] && Significant(text[i])
    {
      LetterIsPlain(Encoded(bytes)[i]);
    }
    UpperIsSame(text);
    FilterAll(Significant, text);
  }

  lemma EncodedNonEmpty(bytes: seq<Byte>)
    ensures Encoded(bytes) == [] <==> bytes == []
  {
    StreamOfEncoded(bytes);
    StreamLength5(Encoded(bytes));
    StreamLength8(bytes);
  }

  /**
   * However an encoded secret is typed back, in either case and with separators, the
   * decoder recovers the bytes; only the empty secret is refused.
   */
  lemma RoundTrip(bytes: seq<Byte>, typed: string)
    requires Normalized(typed) == EncodedText(bytes)
    ensures DecodedText(typed) == Ok(bytes) <==> bytes != []
    ensures bytes == [] ==> DecodedText(typed).Err?
  {
    hide Encoded, Decoded, Letter, ALPHABET;
    var symbols, letters := Encoded(bytes), EncodedText(bytes);
    EncodedNonEmpty(bytes);
    forall i | 0 <= i < |letters|
      ensures letters[i] in ALPHABET && IndexOf(ALPHABET, letters[i]) == symbols[i]
    {
      LetterInjective(symbols[i]);
    }
    assert Positions(letters) == symbols;
    DecodedOfEncoded(bytes);
  }

  // ----- What people type -----

  predicate IsSeparator(c: char) {
    c == '=' || c == '-' || IsSpace(c)
  }

  /** A letter outside the small ones that stands for these capital letters. */
  predicate Ligature(c: char, letters: string) {
    || (c == '\U{DF}' && letters == ['S', 'S']) || (c == '\U{131}' && letters == ['I'])
    || (c == '\U{17F}' && letters == ['S']) || (c == '\U{FB00}' && letters == ['F', 'F'])
    || (c == '\U{FB01}' && letters == ['F', 'I']) || (c == '\U{FB02}' && letters == ['F', 'L'])
    || (c == '\U{FB03}' && letters == ['F', 'F', 'I']) || (c == '\U{FB04}' && letters == ['F', 'F', 'L'])
    || (c in ['\U{FB05}', '\U{FB06}'] && letters == ['S', 'T'])
  }

  /** The character writes these letters: one in either case, or a ligature of them. */
  predicate Writes(c: char, letters: string) {
    || letters == [c]
    || (|letters| == 1 && 'A' <= letters[0] <= 'Z' && c as int == letters[0] as int + 32)
    || Ligature(c, letters)
  }

  /** The text typed in pieces, with separators anywhere. */
  predicate Types(typed: string, text: string)
    decreases |typed|
  {
    if typed == [] then text == []
    else if IsSeparator(typed[0]) then Types(typed[1..], text)
    else exists n :: 1 <= n <= |text| && TypesOn(typed, text, n)
  }

  predicate TypesOn(typed: string, text: string, n: nat)
    requires typed != [] && n <= |text|
    decreases |typed|, 0
  {
    Writes(typed[0], text[..n]) && Types(typed[1..], text[n..])
  }

  predicate IsPlain(c: char) {
    'A' <= c <= 'Z' || '2' <= c <= '7'
  }

  lemma WrittenUpper(c: char, letters: string)
    requires !IsSeparator(c) && Writes(c, letters) && forall x :: x in letters ==> IsPlain(x)
    ensures UpperCase(c) == letters && forall x :: x in letters ==> Significant(x)
  {
    if letters == [c] {
      assert c in letters;
    } else if |letters| == 1 {
      assert letters[0] in letters && letters == [letters[0]];
    }
  }

  lemma SeparatorUpper(c: char)
    requires IsSeparator(c)
    ensures UpperCase(c) == [c] && !Significant(c)
  {
  }

  lemma UpperCons(typed: string)
    requires typed != []
    ensures UpperText(typed) == UpperCase(typed[0]) + UpperText(typed[1..])
  {
  }

  lemma {:induction false} TypedNormalizes(typed: string, text: string)
    requires Types(typed, text) && forall x :: x in text ==> IsPlain(x)
    ensures Normalized(typed) == text
    decreases |typed|
  {
    hide UpperCase, Significant, UpperText, IsSeparator, Writes, IsPlain;
    if typed == [] {
      assert UpperText([]) == [] by { EmptyUpper(); }
    } else {
      UpperCons(typed);
      FilterConcat(Significant, UpperCase(typed[0]), UpperText(typed[1..]));
      if IsSeparator(typed[0]) {
        SeparatorUpper(typed[0]);
        FilterNone(Significant, [typed[0]]);
        TypedNormalizes(typed[1..], text);
      } else {
        var n :| 1 <= n <= |text| && TypesOn(typed, text, n);
        assert text == text[..n] + text[n..];
        WrittenUpper(typed[0], text[..n]);
        FilterAll(Significant, text[..n]);
        TypedNormalizes(typed[1..], text[n..]);
      }
    }
  }

  lemma EmptyUpper()
    ensures UpperText([]) == []
  {
  }

  lemma LettersArePlain(bytes: seq<Byte>)
    ensures forall x :: x in EncodedText(bytes) ==> IsPlain(x)
  {
    hide Letter, Encoded;
    var text := EncodedText(bytes);
    forall i | 0 <= i < |text|
      ensures IsPlain(text[i])
    {
      AlphabetLetters(Encoded(bytes)[i]);
    }
  }

  /** A secret typed back in either case, with separators anywhere, decodes unless it is empty. */
  lemma TypedBack(bytes: seq<Byte>, typed: string)
    requires Types(typed, EncodedText(bytes))
    ensures DecodedText(typed) == if bytes == [] then Err("Invalid authenticator secret") else Ok(bytes)
  {
    hide Types, EncodedText, Normalized;
    LettersArePlain(bytes);
    TypedNormalizes(typed, EncodedText(bytes));
    RoundTrip(bytes, typed);
  }

  /** Anything else refuses the whole text: a character that writes no letters and separates none. */
  lemma ForeignIsRefused(value: string, i: nat)
    requires i < |value| && !IsSeparator(value[i]) && !IsPlain(value[i]) && !('a' <= value[i] <= 'z')
    requires forall letters :: !Ligature(value[i], letters)
    ensures DecodedText(value) == Err("Invalid authenticator secret")
  {
    var c := value[i];
    ForeignUpper(c);
    UpperHolds(value, i, c);
    ForeignLetter(c);
    hide UpperCase, UpperText, Significant, Ligature, ALPHABET, Decoded, Positions, Filter;
    FilterMember(Significant, UpperText(value), c);
  }

  lemma ForeignUpper(c: char)
    requires !('a' <= c <= 'z') && forall letters :: !Ligature(c, letters)
    ensures UpperCase(c) == [c]
  {
    assert !Ligature(c, ['S', 'S']) && !Ligature(c, ['I']) && !Ligature(c, ['S']) && !Ligature(c, ['F', 'F']);
    assert !Ligature(c, ['F', 'I']) && !Ligature(c, ['F', 'L']) && !Ligature(c, ['F', 'F', 'I']);
    assert !Ligature(c, ['F', 'F', 'L']) && !Ligature(c, ['S', 'T']);
  }

  lemma ForeignLetter(c: char)
    requires !IsSeparator(c) && !IsPlain(c)
    ensures Significant(c) && c !in ALPHABET
  {
  }

  lemma {:induction false} UpperHolds(value: string, i: nat, c: char)
    requires i < |value| && UpperCase(value[i]) == [c]
    ensures c in UpperText(value)
  {
    hide UpperCase;
    if i > 0 {
      UpperHolds(value[1..], i - 1, c);
    }
  }

  lemma RoundTripVerbatim(bytes: seq<Byte>)
    ensures DecodedText(EncodedText(bytes)) == Ok(bytes) <==> bytes != []
  {
    NormalizedEncodedText(bytes);
    RoundTrip(bytes, EncodedText(bytes));
  }
}
