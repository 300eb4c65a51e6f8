/**
 * The 32-bit accumulator of the Base32 loops. It is never masked, so old bits pile up
 * above the pending ones and fall off at bit 32.
 */
module Accumulator {
  import opened BitStreams

  const WORD := 0x1_0000_0000

  type Word = x: int | 0 <= x < WORD

  /** `x << k` on a 32-bit word: the bits pushed past bit 31 are lost. */
  function ShiftLeft(x: Word, k: nat): Word {
    (x * Pow2(k)) % WORD
  }

  /** `x >>> k` on a 32-bit word. */
  function ShiftRight(x: Word, k: nat): int {
    x / Pow2(k)
  }

  /** The low `k` bits of the word are the pending bits. */
  ghost predicate Holds(acc: Word, pending: seq<Bit>) {
    acc % Pow2(|pending|) == Value(pending)
  }

  lemma MulBelow(a: nat, b: nat, k: nat)
    requires a < b
    ensures a * k + k <= b * k
  {
    var d := b - a - 1;
    assert b * k == (a + 1 + d) * k == a * k + k + d * k;
  }

  lemma DivModUnique(a: nat, m: nat, q: nat, b: nat)
    requires 0 <= b < m && a == m * q + b
    ensures a / m == q && a % m == b
  {
    var p := a / m;
    assert a == m * p + a % m;
    if p < q {
      MulBelow(p, q, m);
      assert false;
    } else if q < p {
      MulBelow(q, p, m);
      assert false;
    }
  }

  lemma DivModSplit(a: nat, m: nat) returns (q: nat, b: nat)
    requires m > 0
    ensures a == m * q + b && b < m && b == a % m
  {
    q, b := a / m, a % m;
  }

  lemma ModModPoly(m: nat, r: nat, t: nat, x: nat, y: nat)
    ensures (m * r) * t + (m * x + y) == m * (r * t + x) + y
  {
  }

  lemma ModMod(a: nat, m: nat, r: nat)
    requires m > 0 && m * r > 0
    ensures (a % (m * r)) % m == a % m
  {
    var t, s := DivModSplit(a, m * r);
    var x, y := DivModSplit(s, m);
    ModModPoly(m, r, t, x, y);
    DivModUnique(a, m, r * t + x, y);
  }

  lemma PushPoly(p: nat, q: nat, value: nat, k: nat, v: nat)
    requires value < p && v < k
    ensures (p * q + value) * k + v == (p * k) * q + (value * k + v)
    ensures value * k + v < p * k
  {
    MulBelow(value, p, k);
  }

  lemma PushArithmetic(acc: nat, p: nat, k: nat, v: nat)
    requires p > 0 && v < k && p * k > 0
    ensures (acc * k + v) % (p * k) == (acc % p) * k + v
  {
    var q, value := DivModSplit(acc, p);
    PushPoly(p, q, value, k, v);
    DivModUnique(acc * k + v, p * k, q, value * k + v);
  }

  /**
   * `(accumulator << k) | v`, for v of at most k bits: the low k bits of the shifted
   * word are zero, so the bitwise or is a sum, and it stays within 32 bits.
   */
  function ShiftIn(acc: Word, v: nat, k: nat): (r: Word)
    requires k <= 32 && v < Pow2(k)
    ensures r == (acc * Pow2(k) + v) % WORD
  {
    WordIsPow2(k);
    ShiftInFits(acc, Pow2(k), Pow2(32 - k), v);
    ShiftLeft(acc, k) + v
  }

  lemma WordIsPow2(k: nat)
    requires k <= 32
    ensures WORD == Pow2(k) * Pow2(32 - k)
  {
    hide Pow2;
    Pow2Values();
    Pow2Add(8, 8);
    Pow2Add(16, 16);
    Pow2Add(k, 32 - k);
  }

  lemma ShiftInFits(acc: nat, k: nat, r: nat, v: nat)
    requires k > 0 && r > 0 && v < k && k * r > 0
    ensures (acc * k) % (k * r) + v == (acc * k + v) % (k * r)
    ensures (acc * k) % (k * r) + v < k * r
  {
    assert k * r == r * k;
    PushArithmetic(acc, r, k, 0);
    PushArithmetic(acc, r, k, v);
    PushPoly(r, acc / r, acc % r, k, v);
  }

  lemma WordMod(x: nat, n: nat)
    requires n <= 32
    ensures (x % WORD) % Pow2(n) == x % Pow2(n)
  {
    WordIsPow2(n);
    ModMod(x, Pow2(n), Pow2(32 - n));
  }

  lemma PushWord(acc: nat, n: nat, v: nat, k: nat, r: nat)
    requires n + k <= 32 && v < Pow2(k)
    requires r == (acc * Pow2(k) + v) % WORD
    ensures r % Pow2(n + k) == (acc % Pow2(n)) * Pow2(k) + v
  {
    WordMod(acc * Pow2(k) + v, n + k);
    Pow2Add(n, k);
    PushArithmetic(acc, Pow2(n), Pow2(k), v);
  }

  /** Shifting bits in appends them to the pending bits, although nothing is masked. */
  lemma PushBits(acc: Word, pending: seq<Bit>, v: nat, k: nat)
    requires Holds(acc, pending) && |pending| + k <= 32 && v < Pow2(k)
    ensures Holds(ShiftIn(acc, v, k), pending + ToBits(v, k))
  {
    var bits := ToBits(v, k);
    PushWord(acc, |pending|, v, k, ShiftIn(acc, v, k));
    ValueConcat(pending, bits);
    assert |pending + bits| == |pending| + k;
  }

  lemma PopPoly(low: nat, high: nat, q: nat, h: nat, l: nat)
    ensures (low * high) * q + (h * low + l) == low * (high * q + h) + l
  {
  }

  lemma PopArithmetic(acc: nat, low: nat, high: nat, h: nat, l: nat)
    requires l < low && h < high && low * high > 0
    requires acc % (low * high) == h * low + l
    ensures (acc / low) % high == h && acc % low == l
  {
    var w := low * high;
    var q := acc / w;
    assert acc == w * q + (h * low + l);
    PopPoly(low, high, q, h, l);
    DivModUnique(acc, low, high * q + h, l);
    DivModUnique(high * q + h, high, q, h);
  }

  /** `(accumulator >>> bits) & mask` reads the oldest k pending bits and leaves the rest. */
  lemma PopBits(acc: Word, pending: seq<Bit>, k: nat)
    requires Holds(acc, pending) && k <= |pending|
    ensures ShiftRight(acc, |pending| - k) % Pow2(k) == Value(pending[..k])
    ensures Holds(acc, pending[k..])
  {
    hide Pow2, Value;
    var oldest, rest := pending[..k], pending[k..];
    assert pending == oldest + rest;
    ValueConcat(oldest, rest);
    Pow2Add(|rest|, k);
    PopArithmetic(acc, Pow2(|rest|), Pow2(k), Value(oldest), Value(rest));
  }
}
