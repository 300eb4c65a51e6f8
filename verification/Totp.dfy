/**
 * One-time codes: the dynamic truncation of section 5.3 of RFC 4226 and the window
 * search of `verifyTotp`. The keyed hash is a parameter.
 */
module Totp {
  import opened Basics
  import opened Text

  import Base32
  import BitStreams

  const STEP_SECONDS := 30
  const DIGITS := 6

  type Byte = BitStreams.Byte
  type Digest = d: seq<Byte> | |d| == 20 witness seq(20, _ => 0)
  type Mac = (seq<Byte>, nat) -> Digest

  // ----- Codes -----

  /** The 31-bit number read at the offset that the last nibble of the digest names. */
  function Truncated(digest: Digest): (r: nat)
    ensures r < 0x8000_0000
  {
    var offset := digest[19] % 16;
    var d0: nat, d1: nat, d2: nat, d3: nat :=
      digest[offset] % 128, digest[offset + 1], digest[offset + 2], digest[offset + 3];
    d0 * 0x100_0000 + d1 * 0x1_0000 + d2 * 0x100 + d3
  }

  function Decimal(n: nat): string {
    var last := [('0' as int + n % 10) as char];
    if n < 10 then last else Decimal(n / 10) + last
  }

  function PadStart(s: string, width: nat, fill: char): string
    decreases width - |s|
  {
    if |s| >= width then s else PadStart([fill] + s, width, fill)
  }

  predicate IsDigit(c: char) {
    '0' <= c <= '9'
  }

  /** The number a string of decimal digits writes. */
  function Number(s: string): int {
    if s == [] then 0 else 10 * Number(s[..|s| - 1]) + (s[|s| - 1] as int - '0' as int)
  }

  function Code(digest: Digest): string {
    PadStart(Decimal(Truncated(digest) % 1000000), DIGITS, '0')
  }

  function Pow10(n: nat): (p: nat)
    ensures p >= 1
  {
    if n == 0 then 1 else 10 * Pow10(n - 1)
  }

  lemma {:induction false} DecimalShape(n: nat, width: nat)
    requires width > 0 && n < Pow10(width)
    ensures 1 <= |Decimal(n)| <= width
    ensures forall c :: c in Decimal(n) ==> IsDigit(c)
    ensures Number(Decimal(n)) == n
  {
    var last := [('0' as int + n % 10) as char];
    if n < 10 {
      assert Number(last[..0]) == 0;
    } else {
      assert width > 1;
      DecimalShape(n / 10, width - 1);
      assert Decimal(n)[..|Decimal(n)| - 1] == Decimal(n / 10);
    }
  }

  lemma {:induction false} LeadingZero(s: string)
    ensures Number(['0'] + s) == Number(s)
  {
    if s == [] {
      assert ['0'][..0] == [];
    } else {
      LeadingZero(s[..|s| - 1]);
      assert (['0'] + s)[..|s|] == ['0'] + s[..|s| - 1];
    }
  }

  lemma {:induction false} PadShape(s: string, width: nat)
    requires |s| <= width && forall c :: c in s ==> IsDigit(c)
    ensures |PadStart(s, width, '0')| == width
    ensures forall c :: c in PadStart(s, width, '0') ==> IsDigit(c)
    ensures Number(PadStart(s, width, '0')) == Number(s)
    decreases width - |s|
  {
    if |s| < width {
      LeadingZero(s);
      PadShape(['0'] + s, width);
    }
  }

  /** A code is six decimal digits that write the truncated digest modulo one million. */
  lemma CodeShape(digest: Digest)
    ensures |Code(digest)| == DIGITS
    ensures forall c :: c in Code(digest) ==> IsDigit(c)
    ensures Number(Code(digest)) == Truncated(digest) % 1000000
  {
    var n := Truncated(digest) % 1000000;
    assert Pow10(6) == 1000000;
    DecimalShape(n, 6);
    PadShape(Decimal(n), 6);
  }

  lemma Pow2Large()
    ensures BitStreams.Pow2(16) == 0x1_0000 && BitStreams.Pow2(24) == 0x100_0000
    ensures BitStreams.Pow2(31) == 0x8000_0000 && BitStreams.Pow2(32) == 0x1_0000_0000
  {
    BitStreams.Pow2Values();
    BitStreams.Pow2Add(8, 8);
    BitStreams.Pow2Add(16, 8);
    BitStreams.Pow2Add(16, 16);
    assert 2 * BitStreams.Pow2(31) == BitStreams.Pow2(32);
  }

  lemma StreamCons(x: Byte, rest: seq<Byte>, n: nat)
    requires BitStreams.Pow2(8) == 256 && |BitStreams.Stream(rest, 8)| == n
    ensures |BitStreams.Stream([x] + rest, 8)| == n + 8
    ensures BitStreams.Value(BitStreams.Stream([x] + rest, 8))
         == x * BitStreams.Pow2(n) + BitStreams.Value(BitStreams.Stream(rest, 8))
  {
    assert ([x] + rest)[1..] == rest;
    hide BitStreams.Pow2;
    BitStreams.ValueConcat(BitStreams.ToBits(x, 8), BitStreams.Stream(rest, 8));
  }

  lemma FourBytes(d: seq<Byte>)
    requires |d| == 4
    ensures BitStreams.Pow2(8) == 256
    ensures |BitStreams.Stream(d, 8)| == 32
    ensures BitStreams.Value(BitStreams.Stream(d, 8))
         == d[0] as int * 0x100_0000 + d[1] as int * 0x1_0000 + d[2] as int * 0x100 + d[3]
  {
    Pow2Large();
    EmptyStream();
    hide BitStreams.Pow2, BitStreams.Value, BitStreams.ToBits, BitStreams.Stream;
    StreamCons(d[3], [], 0);
    StreamCons(d[2], [d[3]] + [], 8);
    StreamCons(d[1], [d[2]] + ([d[3]] + []), 16);
    StreamCons(d[0], [d[1]] + ([d[2]] + ([d[3]] + [])), 24);
    assert d == [d[0]] + ([d[1]] + ([d[2]] + ([d[3]] + [])));
  }

  lemma EmptyStream()
    ensures BitStreams.Stream([], 8) == [] && BitStreams.Value([]) == 0 && BitStreams.Pow2(0) == 1
    ensures BitStreams.Pow2(8) == 256
  {
    BitStreams.Pow2Values();
  }

  /**
   * The truncation of section 5.3 of RFC 4226: from the byte that the last nibble of the
   * digest names, four bytes written out as bits, without the first bit.
   */
  lemma TruncatedBits(digest: Digest)
    ensures BitStreams.Pow2(8) == 256 && BitStreams.Pow2(31) == 0x8000_0000
    ensures var o := digest[19] % 16;
            BitStreams.ToBits(Truncated(digest), 31) == BitStreams.Stream(digest[o..o + 4], 8)[1..]
  {
    var o := digest[19] % 16;
    var d := digest[o..o + 4];
    var bits := BitStreams.Stream(d, 8) by { BitStreams.Pow2Values(); }
    Pow2Large();
    FourBytes(d);
    hide BitStreams.Pow2, BitStreams.Stream, BitStreams.Value, BitStreams.ToBits;
    FirstBit(bits);
    TopBit(d[0], d[1], d[2], d[3], bits[0], BitStreams.Value(bits[1..]));
    BitStreams.ToBitsOfValue(bits[1..]);
    assert Truncated(digest) == BitStreams.Value(bits[1..]);
  }

  lemma FirstBit(bits: seq<BitStreams.Bit>)
    requires |bits| == 32
    ensures BitStreams.Value(bits) == bits[0] * 0x8000_0000 + BitStreams.Value(bits[1..])
    ensures BitStreams.Value(bits[1..]) < 0x8000_0000
  {
    Pow2Large();
    hide BitStreams.Pow2;
    BitStreams.ValueConcat(bits[..1], bits[1..]);
    assert bits == bits[..1] + bits[1..];
    assert bits[..1][..0] == [];
    assert BitStreams.Value(bits[..1][..0]) == 0;
    assert BitStreams.Value(bits[..1]) == bits[0];
  }

  lemma TopBit(a: int, b: int, c: int, d: int, top: BitStreams.Bit, rest: nat)
    requires 0 <= a < 256 && 0 <= b < 256 && 0 <= c < 256 && 0 <= d < 256
    requires a * 0x100_0000 + b * 0x1_0000 + c * 0x100 + d == top * 0x8000_0000 + rest && rest < 0x8000_0000
    ensures a % 128 * 0x100_0000 + b * 0x1_0000 + c * 0x100 + d == rest
  {
    assert a == a / 128 * 128 + a % 128;
  }

  /** Two digests give one code exactly when their truncations agree modulo one million. */
  lemma CodesAgree(a: Digest, b: Digest)
    ensures Code(a) == Code(b) <==> Truncated(a) % 1000000 == Truncated(b) % 1000000
  {
    CodeShape(a);
    CodeShape(b);
  }

  /** `hotp`: a negative counter does not fit the unsigned buffer and throws. */
  function Hotp(mac: Mac, secret: string, counter: int): Result<string> {
    if counter < 0 then Err("value out of range")
    else
      match Base32.DecodedText(secret)
      case Err(message) => Err(message)
      case Ok(key) => Ok(Code(mac(key, counter)))
  }

  // ----- Verification -----

  function CurrentCounter(now: int): int {
    now / 1000 / STEP_SECONDS
  }

  predicate WellFormed(code: string) {
    |code| == 6 && forall c :: c in code ==> IsDigit(c)
  }

  function StripSpaces(code: string): string {
    Filter(c => !IsSpace(c), code)
  }

  /** The search over counters `first .. last`, both included. */
  function Search(mac: Mac, secret: string, code: string, first: int, last: int): Result<Option<int>>
    decreases last - first
  {
    if first > last then Ok(None)
    else
      match Hotp(mac, secret, first)
      case Err(message) => Err(message)
      case Ok(expected) => if expected == code then Ok(Some(first)) else Search(mac, secret, code, first + 1, last)
  }

  function Verified(mac: Mac, secret: string, code: string, now: int, window: int): Result<Option<int>> {
    var current, typed := CurrentCounter(now), StripSpaces(code);
    if WellFormed(typed) then Search(mac, secret, typed, current - window, current + window) else Ok(None)
  }

  method VerifyTotp(mac: Mac, secret: string, code: string, now: int, window: int)
    returns (accepted: Result<Option<int>>)
    ensures accepted == Verified(mac, secret, code, now, window)
  {
    hide Hotp, StripSpaces, WellFormed, CurrentCounter;
    var normalized := StripSpaces(code);
    if !WellFormed(normalized) {
      return Ok(None);
    }
    var current := CurrentCounter(now);
    var offset := -window;
    while offset <= window
      invariant Search(mac, secret, normalized, current - window, current + window)
             == Search(mac, secret, normalized, current + offset, current + window)
    {
      var expected := Hotp(mac, secret, current + offset);
      if expected.Err? {
        return Err(expected.message);
      }
      if expected.value == normalized {
        return Ok(Some(current + offset));
      }
      offset := offset + 1;
    }
    return Ok(None);
  }

  /** `found` is the earliest counter of `first .. last` that produces the code, if any does. */
  ghost predicate IsEarliest(mac: Mac, secret: string, code: string, first: int, last: int, found: Option<int>) {
    match found
    case None => forall c :: first <= c <= last ==> Hotp(mac, secret, c) != Ok(code)
    case Some(k) =>
      && first <= k <= last
      && Hotp(mac, secret, k) == Ok(code)
      && (forall c :: first <= c < k ==> Hotp(mac, secret, c) != Ok(code))
  }

  lemma HotpDefined(mac: Mac, secret: string, counter: int)
    ensures Hotp(mac, secret, counter).Ok? <==> counter >= 0 && Base32.DecodedText(secret).Ok?
  {
    hide Base32.DecodedText;
  }

  lemma {:induction false} SearchMeaning(mac: Mac, secret: string, code: string, first: int, last: int)
    requires 0 <= first && Base32.DecodedText(secret).Ok?
    ensures var r := Search(mac, secret, code, first, last);
            r.Ok? && IsEarliest(mac, secret, code, first, last, r.value)
    decreases last - first
  {
    hide Hotp, Base32.DecodedText;
    if first <= last {
      HotpDefined(mac, secret, first);
      SearchMeaning(mac, secret, code, first + 1, last);
    }
  }

  /**
   * A malformed code is refused; a well-formed one is accepted with the earliest counter
   * of the window that produces it, and refused when no counter of the window does.
   */
  lemma VerifiedMeaning(mac: Mac, secret: string, code: string, now: int, window: int)
    ensures var typed := StripSpaces(code);
            |typed| != 6 || (exists c :: c in typed && !('0' <= c <= '9')) ==>
              Verified(mac, secret, code, now, window) == Ok(None)
    ensures var typed := StripSpaces(code);
            && |typed| == 6 && (forall c :: c in typed ==> '0' <= c <= '9')
            && Base32.DecodedText(secret).Ok? && CurrentCounter(now) - window >= 0 ==>
              var r := Verified(mac, secret, code, now, window);
              && r.Ok?
              && IsEarliest(mac, secret, typed, CurrentCounter(now) - window, CurrentCounter(now) + window, r.value)
  {
    hide Search, IsEarliest, Base32.DecodedText, StripSpaces;
    if Base32.DecodedText(secret).Ok? && CurrentCounter(now) - window >= 0 {
      SearchMeaning(mac, secret, StripSpaces(code), CurrentCounter(now) - window, CurrentCounter(now) + window);
    }
  }

  /**
   * Exactly when verification throws: the code has six digits, the window is not empty,
   * and either the window reaches below counter zero or the secret does not decode.
   */
  lemma VerifiedThrows(mac: Mac, secret: string, code: string, now: int, window: int)
    ensures Verified(mac, secret, code, now, window).Err?
       <==> && WellFormed(StripSpaces(code)) && window >= 0
            && (CurrentCounter(now) < window || Base32.DecodedText(secret).Err?)
  {
    hide Hotp, IsEarliest, Base32.DecodedText, WellFormed, StripSpaces, CurrentCounter;
    var current, typed := CurrentCounter(now), StripSpaces(code);
    HotpDefined(mac, secret, current - window);
    if current >= window && Base32.DecodedText(secret).Ok? {
      SearchMeaning(mac, secret, typed, current - window, current + window);
    }
  }

  /** The counter is the number of whole 30-second steps since the epoch. */
  lemma CounterMeaning(now: int)
    ensures CurrentCounter(now) * 30000 <= now < (CurrentCounter(now) + 1) * 30000
  {
  }

  /** The code of a counter: six digits that write the truncated hash of it under the secret's bytes. */
  lemma HotpMeaning(mac: Mac, secret: string, counter: int)
    ensures Hotp(mac, secret, counter).Ok? <==> counter >= 0 && Base32.DecodedText(secret).Ok?
    ensures Hotp(mac, secret, counter).Ok? ==>
              var code := Hotp(mac, secret, counter).value;
              && WellFormed(code)
              && Number(code) == Truncated(mac(Base32.DecodedText(secret).value, counter)) % 1000000
  {
    hide Base32.DecodedText, Code, Truncated, Number;
    if counter >= 0 && Base32.DecodedText(secret).Ok? {
      CodeShape(mac(Base32.DecodedText(secret).value, counter));
    }
  }

  /** A code made at `made` is accepted at every `now` at most `window` steps away. */
  lemma FreshCodeAccepted(mac: Mac, key: seq<Byte>, made: nat, now: nat, window: nat)
    requires key != [] && CurrentCounter(now) >= window
    requires CurrentCounter(now) - window <= CurrentCounter(made) <= CurrentCounter(now) + window
    ensures var secret := Base32.EncodedText(key);
            var code := Code(mac(key, CurrentCounter(made)));
            exists k :: Verified(mac, secret, code, now, window) == Ok(Some(k)) && k <= CurrentCounter(made)
  {
    hide Base32.DecodedText, Base32.EncodedText, Code, Verified, CurrentCounter;
    var secret, code := Base32.EncodedText(key), Code(mac(key, CurrentCounter(made)));
    Base32.RoundTripVerbatim(key);
    CodeShape(mac(key, CurrentCounter(made)));
    FilterAll(c => !IsSpace(c), code);
    VerifiedMeaning(mac, secret, code, now, window);
    assert Hotp(mac, secret, CurrentCounter(made)) == Ok(code);
  }
}
