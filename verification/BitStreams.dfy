/**
 * The reference for the Base32 codec, as section 6 of RFC 4648 defines it: a string of
 * digits written out as bits, and the bits grouped again.
 */
module BitStreams {

  type Byte = x: int | 0 <= x < 256
  type Symbol = x: int | 0 <= x < 32
  type Bit = x: int | 0 <= x < 2

  function Pow2(n: nat): (p: nat)
    ensures p > 0
  {
    if n == 0 then 1 else 2 * Pow2(n - 1)
  }

  // ----- The reference: bit streams -----

  /** The number a bit string writes, most significant bit first. */
  function Value(bits: seq<Bit>): (v: nat)
    ensures v < Pow2(|bits|)
  {
    if bits == [] then 0 else 2 * Value(bits[..|bits| - 1]) + bits[|bits| - 1]
  }

  /** The `width`-bit string of a number. */
  function ToBits(v: nat, width: nat): (bits: seq<Bit>)
    requires v < Pow2(width)
    ensures |bits| == width
    ensures Value(bits) == v
  {
    if width == 0 then [] else ToBits(v / 2, width - 1) + [v % 2]
  }

  /** All digits written out in `width` bits each. */
  function Stream(digits: seq<nat>, width: nat): (bits: seq<Bit>)
    requires forall i :: 0 <= i < |digits| ==> digits[i] < Pow2(width)
  {
    if digits == [] then [] else ToBits(digits[0], width) + Stream(digits[1..], width)
  }

  /** The complete groups of `width` bits, as numbers; leftover bits are dropped. */
  function Groups(bits: seq<Bit>, width: nat): (digits: seq<nat>)
    requires width > 0
    ensures forall i :: 0 <= i < |digits| ==> digits[i] < Pow2(width)
    decreases |bits|
  {
    if |bits| < width then [] else [Value(bits[..width])] + Groups(bits[width..], width)
  }

  /** The bits that `Groups` drops. */
  function Leftover(bits: seq<Bit>, width: nat): (rest: seq<Bit>)
    requires width > 0
    ensures |rest| < width
    decreases |bits|
  {
    if |bits| < width then bits else Leftover(bits[width..], width)
  }

  function Zeros(n: nat): (bits: seq<Bit>)
    ensures |bits| == n
  {
    seq(n, _ => 0)
  }

  /** How many zero bits bring a length to a multiple of five. */
  function PadLength(n: nat): (k: nat)
    ensures k < 5 && (n + k) % 5 == 0
  {
    if n % 5 == 0 then 0 else 5 - n % 5
  }

  /** Zero bits appended until the length is a multiple of five. */
  function Padded(bits: seq<Bit>): (r: seq<Bit>) {
    bits + Zeros(PadLength(|bits|))
  }

  /** Section 6 of RFC 4648: the bytes as bits, padded with zeros, in groups of five. */
  function Encoded(bytes: seq<Byte>): (symbols: seq<Symbol>) {
    Pow2Values();
    Groups(Padded(Stream(bytes, 8)), 5)
  }

  function Decoded(symbols: seq<Symbol>): (bytes: seq<Byte>) {
    Pow2Values();
    Groups(Stream(symbols, 5), 8)
  }

  // ----- Laws of the reference -----

  lemma Pow2Values()
    ensures Pow2(1) == 2 && Pow2(2) == 4 && Pow2(3) == 8 && Pow2(4) == 16
    ensures Pow2(5) == 32 && Pow2(6) == 64 && Pow2(7) == 128 && Pow2(8) == 256
  {
  }

  lemma {:induction false} Pow2Add(a: nat, b: nat)
    ensures Pow2(a + b) == Pow2(a) * Pow2(b)
  {
    if a != 0 {
      Pow2Add(a - 1, b);
    }
  }

  lemma Distribute(v: nat, p: nat, w: nat, bit: nat)
    ensures 2 * (v * p + w) + bit == v * (2 * p) + (2 * w + bit)
  {
  }

  /** Appending bits shifts the number left and adds the new low part. */
  lemma {:induction false} ValueConcat(a: seq<Bit>, b: seq<Bit>)
    ensures Value(a + b) == Value(a) * Pow2(|b|) + Value(b)
  {
    if b == [] {
      assert a + b == a;
    } else {
      var init, bit := b[..|b| - 1], b[|b| - 1];
      ValueConcat(a, init);
      assert (a + b)[..|a + b| - 1] == a + init;
      assert Value(a + b) == 2 * Value(a + init) + bit;
      Distribute(Value(a), Pow2(|init|), Value(init), bit);
    }
  }

  /** `ToBits` and `Value` are inverse in this direction too. */
  lemma {:induction false} ToBitsOfValue(bits: seq<Bit>)
    ensures ToBits(Value(bits), |bits|) == bits
  {
    hide Pow2;
    if bits != [] {
      var init, last := bits[..|bits| - 1], bits[|bits| - 1];
      ToBitsOfValue(init);
      assert Value(bits) / 2 == Value(init) && Value(bits) % 2 == last;
      assert bits == init + [last];
    }
  }

  lemma {:induction false} StreamConcat(a: seq<nat>, b: seq<nat>, width: nat)
    requires forall i :: 0 <= i < |a| ==> a[i] < Pow2(width)
    requires forall i :: 0 <= i < |b| ==> b[i] < Pow2(width)
    ensures Stream(a + b, width) == Stream(a, width) + Stream(b, width)
  {
    hide Value, ToBits, Pow2;
    if a == [] {
      assert a + b == b;
    } else {
      StreamConcat(a[1..], b, width);
      assert (a + b)[1..] == a[1..] + b;
    }
  }

  /** Writing the complete groups back gives the bits, short of the leftover. */
  lemma {:induction false} StreamOfGroups(bits: seq<Bit>, width: nat)
    requires width > 0
    ensures bits == Stream(Groups(bits, width), width) + Leftover(bits, width)
    decreases |bits|
  {
    hide Value, ToBits, Pow2;
    if |bits| >= width {
      StreamOfGroups(bits[width..], width);
      ToBitsOfValue(bits[..width]);
      assert bits == bits[..width] + bits[width..];
    }
  }

  lemma GroupsCons(x: seq<Bit>, y: seq<Bit>, width: nat)
    requires |x| == width > 0
    ensures Groups(x + y, width) == [Value(x)] + Groups(y, width)
    ensures Leftover(x + y, width) == Leftover(y, width)
  {
    assert (x + y)[..width] == x && (x + y)[width..] == y;
  }

  /** Regrouping a stream of digits gives the digits, whatever short tail follows. */
  lemma {:induction false} GroupsOfStream(digits: seq<nat>, tail: seq<Bit>, width: nat)
    requires width > 0
    requires forall i :: 0 <= i < |digits| ==> digits[i] < Pow2(width)
    requires |tail| < width
    ensures Groups(Stream(digits, width) + tail, width) == digits
    ensures Leftover(Stream(digits, width) + tail, width) == tail
  {
    hide Value, ToBits, Pow2;
    if digits == [] {
      assert Stream(digits, width) + tail == tail;
    } else {
      var head, more := ToBits(digits[0], width), Stream(digits[1..], width) + tail;
      GroupsOfStream(digits[1..], tail, width);
      assert Stream(digits, width) + tail == head + more;
      GroupsCons(head, more, width);
      assert digits == [digits[0]] + digits[1..];
    }
  }

  lemma {:induction false} StreamLength5(symbols: seq<Symbol>)
    ensures Pow2(5) == 32 && |Stream(symbols, 5)| == 5 * |symbols|
  {
    Pow2Values();
    if symbols != [] {
      StreamLength5(symbols[1..]);
    }
  }

  lemma {:induction false} StreamLength8(bytes: seq<Byte>)
    ensures Pow2(8) == 256 && |Stream(bytes, 8)| == 8 * |bytes|
  {
    Pow2Values();
    if bytes != [] {
      StreamLength8(bytes[1..]);
    }
  }

  /** The symbols of a byte string write exactly its padded bits. */
  lemma StreamOfEncoded(bytes: seq<Byte>)
    ensures Pow2(5) == 32 && Pow2(8) == 256
    ensures Stream(Encoded(bytes), 5) == Padded(Stream(bytes, 8))
  {
    hide Stream, Groups, Leftover, Value, ToBits, Pow2;
    Pow2Values();
    var bits := Padded(Stream(bytes, 8));
    StreamOfGroups(bits, 5);
    StreamLength5(Encoded(bytes));
    assert Leftover(bits, 5) == [];
  }

  /** Decoding undoes encoding on every byte string. */
  lemma DecodedOfEncoded(bytes: seq<Byte>)
    ensures Decoded(Encoded(bytes)) == bytes
  {
    StreamOfEncoded(bytes);
    var bits := Stream(bytes, 8);
    GroupsOfStream(bytes, Zeros(PadLength(|bits|)), 8);
  }

  /** How the bits of a symbol string split around the bytes they decode to. */
  lemma DecodedSplit(symbols: seq<Symbol>) returns (whole: seq<Bit>, rest: seq<Bit>)
    ensures Pow2(5) == 32 && Pow2(8) == 256
    ensures whole == Stream(Decoded(symbols), 8)
    ensures rest == Leftover(Stream(symbols, 5), 8)
    ensures |whole + rest| % 5 == 0
    ensures Stream(symbols, 5) == whole + rest
    ensures Stream(Encoded(Decoded(symbols)), 5) == whole + Zeros(PadLength(|whole|))
  {
    hide Stream, Groups, Leftover, Value, ToBits, Pow2, Encoded;
    Pow2Values();
    StreamOfGroups(Stream(symbols, 5), 8);
    StreamLength5(symbols);
    StreamOfEncoded(Decoded(symbols));
    whole := Stream(Decoded(symbols), 8);
    rest := Leftover(Stream(symbols, 5), 8);
  }

  /** Short zero runs that complete the same multiple of five are equal. */
  lemma SamePadding(n: nat, rest: seq<Bit>)
    requires |rest| < 5 && (n + |rest|) % 5 == 0 && rest == Zeros(|rest|)
    ensures rest == Zeros(PadLength(n))
  {
    assert |rest| == PadLength(n);
  }

  lemma StreamInjective(a: seq<Symbol>, b: seq<Symbol>)
    requires Pow2(5) == 32
    requires Stream(a, 5) == Stream(b, 5)
    ensures a == b
  {
    GroupsOfStream(a, [], 5);
    GroupsOfStream(b, [], 5);
  }

  /**
   * Encoding undoes decoding exactly on canonical symbol strings: fewer than five bits
   * are left over after the last byte, and they are zero.
   */
  lemma EncodedOfDecoded(symbols: seq<Symbol>)
    ensures Pow2(5) == 32
    ensures Encoded(Decoded(symbols)) == symbols
       <==> var rest := Leftover(Stream(symbols, 5), 8); |rest| < 5 && rest == Zeros(|rest|)
  {
    hide *;
    var whole, rest := DecodedSplit(symbols);
    var pad := Zeros(PadLength(|whole|));
    if Encoded(Decoded(symbols)) == symbols {
      SameTail(whole, pad, rest);
    }
    if |rest| < 5 && rest == Zeros(|rest|) {
      SamePadding(|whole|, rest);
      StreamInjective(Encoded(Decoded(symbols)), symbols);
    }
  }

  lemma SameTail(whole: seq<Bit>, a: seq<Bit>, b: seq<Bit>)
    requires whole + a == whole + b
    ensures a == b
  {
    assert a == (whole + a)[|whole|..] == b;
  }
}
