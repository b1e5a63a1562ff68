/** The bit windows of a 32-bit word that SoundAlias packs several enumeration columns into:
    DecodeArrayBits and EncodeArrayBits on C#'s 32-bit int. A word is its 32 bits, least
    significant first, and C#'s `<<`, `>>` (arithmetic on int), `&`, `|` and `~` act on them
    bit by bit. C# takes shift counts modulo 32; that is written out too. */
module Bits {
  import opened Common

  /** The 32 bits of a C# int; bit i has weight 2^i (bit 31 is the sign). */
  type Word = b: seq<bool> | |b| == 32 witness seq(32, i => false)

  function Pow2(n: nat): (r: nat)
    ensures r >= 1
  {
    if n == 0 then 1 else 2 * Pow2(n - 1)
  }

  /** The shift count C# uses for `x << n` and `x >> n` on an int: n modulo 32. */
  function ShiftCount(n: int): (r: nat)
    ensures r < 32
  {
    n % 32
  }

  function Not(x: Word): (r: Word)
    ensures forall i :: 0 <= i < 32 ==> r[i] == !x[i]
  {
    seq(32, i requires 0 <= i < 32 => !x[i])
  }

  function And(x: Word, y: Word): (r: Word)
    ensures forall i :: 0 <= i < 32 ==> r[i] == (x[i] && y[i])
  {
    seq(32, i requires 0 <= i < 32 => x[i] && y[i])
  }

  function Or(x: Word, y: Word): (r: Word)
    ensures forall i :: 0 <= i < 32 ==> r[i] == (x[i] || y[i])
  {
    seq(32, i requires 0 <= i < 32 => x[i] || y[i])
  }

  /** `x << n`: bits move up by n, zeros come in at the bottom, bits past 31 are lost. */
  function ShiftLeft(x: Word, n: nat): (r: Word)
    requires n < 32
    ensures forall i :: 0 <= i < 32 ==> r[i] == (n <= i && x[i - n])
  {
    seq(32, i requires 0 <= i < 32 => n <= i && x[i - n])
  }

  /** `x >> n` on an int: bits move down by n and the sign bit fills the top. */
  function ShiftRightArithmetic(x: Word, n: nat): (r: Word)
    requires n < 32
    ensures forall i :: 0 <= i < 32 ==> r[i] == if i + n < 32 then x[i + n] else x[31]
  {
    seq(32, i requires 0 <= i < 32 => if i + n < 32 then x[i + n] else x[31])
  }

  /** `(1 << k) - 1` for k < 32: the k low bits set. */
  function LowOnes(k: nat): (r: Word)
    requires k < 32
    ensures forall i :: 0 <= i < 32 ==> r[i] == (i < k)
  {
    seq(32, i requires 0 <= i < 32 => i < k)
  }

  /** `(1 << min) - 1` in C#, where the shift count is taken modulo 32. */
  function Mask(min: int): Word {
    LowOnes(ShiftCount(min))
  }

  /** SoundAlias.DecodeArrayBits: `(bits >> max) & ((1 << min) - 1)`. A decoded window never
      has a bit at or above its width, so it is never negative. */
  function DecodeArrayBits(bits: Word, min: int, max: int): (r: Word)
    ensures forall i :: ShiftCount(min) <= i < 32 ==> !r[i]
  {
    And(ShiftRightArithmetic(bits, ShiftCount(max)), Mask(min))
  }

  /** SoundAlias.EncodeArrayBits: `((value & mask) << max) | bits & ~(mask << max)`. Storing
      into a window leaves every bit outside [shift, shift + width) as it was. */
  function EncodeArrayBits(bits: Word, min: int, max: int, value: Word): (r: Word)
    ensures forall i :: 0 <= i < 32 && !InWindow(i, ShiftCount(min), ShiftCount(max)) ==> r[i] == bits[i]
  {
    var mask := Mask(min);
    Or(ShiftLeft(And(value, mask), ShiftCount(max)), And(bits, Not(ShiftLeft(mask, ShiftCount(max)))))
  }

  /** The bits [shift, shift + width) of a word, for a window that fits in it. */
  predicate InWindow(i: int, width: int, shift: int) {
    shift <= i < shift + width
  }

  /** Storing 0 into such a window and reading it back gives 0. */
  lemma ClearedWindow(bits: Word, width: int, shift: int, zero: Word)
    requires 1 <= width <= 31 && 0 <= shift && width + shift <= 32
    requires zero == seq(32, i => false)
    ensures DecodeArrayBits(EncodeArrayBits(bits, width, shift, zero), width, shift) == zero
  {
    ArrayBitsRoundTrip(bits, width, shift, zero);
    assert And(zero, Mask(width)) == zero;
  }

  /** Storing a value into a window of 1 to 31 bits that fits in the word and reading the
      window back gives the value cut to the window's width. */
  lemma ArrayBitsRoundTrip(bits: Word, width: int, shift: int, value: Word)
    requires 1 <= width <= 31 && 0 <= shift && width + shift <= 32
    ensures DecodeArrayBits(EncodeArrayBits(bits, width, shift, value), width, shift) == And(value, Mask(width))
  {
    var x := EncodeArrayBits(bits, width, shift, value);
    var d := DecodeArrayBits(x, width, shift);
    var mask := Mask(width);
    assert ShiftCount(width) == width && ShiftCount(shift) == shift;
    forall i | 0 <= i < 32
      ensures d[i] == (value[i] && mask[i])
    {
      if i < width {
        assert mask[i];
        assert x[i + shift] == value[i];
        assert d[i] == x[i + shift];
      } else {
        assert !mask[i];
      }
    }
  }

  /** Storing into a window that fits sets exactly its bits to the low bits of the value. */
  lemma ArrayBitsStore(bits: Word, width: int, shift: int, value: Word)
    requires 0 <= width <= 31 && 0 <= shift && width + shift <= 32
    ensures forall i :: 0 <= i < 32 && InWindow(i, width, shift) ==>
      EncodeArrayBits(bits, width, shift, value)[i] == value[i - shift]
  {
  }

  /** Storing back the window one just read leaves the word as it was, when the window
      fits (the arithmetic shift's sign copies never reach the window then). */
  lemma ArrayBitsRestore(bits: Word, width: int, shift: int)
    requires 0 <= width <= 31 && 0 <= shift && width + shift <= 32
    ensures EncodeArrayBits(bits, width, shift, DecodeArrayBits(bits, width, shift)) == bits
  {
    var x := EncodeArrayBits(bits, width, shift, DecodeArrayBits(bits, width, shift));
    forall i | 0 <= i < 32
      ensures x[i] == bits[i]
    {
    }
  }

  /** A 32-bit window is no window at all: `1 << 32` is `1 << 0` in C#, so the mask is 0 and
      decoding yields 0 whatever the word holds. */
  lemma FullWidthIsEmpty(bits: Word)
    ensures DecodeArrayBits(bits, 32, 0) == seq(32, i => false)
  {
  }

  /** The natural number the bits denote, least significant first. */
  function ToNat(b: seq<bool>): nat {
    if b == [] then 0 else (if b[0] then 1 else 0) + 2 * ToNat(b[1..])
  }

  lemma {:induction false} ToNatBound(b: seq<bool>)
    ensures ToNat(b) < Pow2(|b|)
  {
    if b != [] {
      ToNatBound(b[1..]);
    }
  }

  /** The k low bits of n in two's complement: bit i is the parity of n / 2^i. */
  function FromInt(n: int, k: nat): (r: seq<bool>)
    ensures |r| == k
  {
    seq(k, i requires 0 <= i < k => (n / Pow2(i)) % 2 == 1)
  }

  /** The low bit of n, then the bits of n / 2. */
  lemma FromIntStep(n: int, k: nat)
    requires k > 0
    ensures FromInt(n, k) == [n % 2 == 1] + FromInt(n / 2, k - 1)
  {
    forall i | 0 < i < k
      ensures FromInt(n, k)[i] == FromInt(n / 2, k - 1)[i - 1]
    {
      HalveDiv(n, Pow2(i - 1));
    }
  }

  /** n div 2p is (n div 2) div p. */
  lemma HalveDiv(n: int, p: nat)
    requires p >= 1
    ensures n / (2 * p) == (n / 2) / p
  {
    var q, r := n / 2, n % 2;
    var a, b := q / p, q % p;
    assert n == 2 * q + r;
    assert q == p * a + b;
    assert n == (2 * p) * a + (r + 2 * b);
    ModOfMultiplePlus(n, 2 * p, a, r + 2 * b);
  }

  /** The bits of 0 are all clear. */
  lemma ZeroBits(n: int, k: nat)
    requires n == 0
    ensures FromInt(n, k) == seq(k, i => false)
  {
    forall i | 0 <= i < k
      ensures !FromInt(n, k)[i]
    {
      assert n / Pow2(i) == 0;
    }
  }

  /** The int a word denotes in two's complement. */
  function Signed32(x: Word): (r: int)
    ensures -0x8000_0000 <= r < 0x8000_0000
  {
    ToNatSplit(x);
    ToNatBound(x[..31]);
    PowersAgree();
    assert Pow2(31) == 0x8000_0000;
    if x[31] then ToNat(x) - TwoTo32 else ToNat(x)
  }

  lemma {:induction false} ToNatOfFromInt(n: int, k: nat)
    ensures ToNat(FromInt(n, k)) == n % Pow2(k)
    decreases k
  {
    if k > 0 {
      FromIntStep(n, k);
      assert FromInt(n, k)[1..] == FromInt(n / 2, k - 1);
      ToNatOfFromInt(n / 2, k - 1);
      HalveMod(n, Pow2(k - 1));
    }
  }

  /** n mod 2p in terms of n mod 2 and (n / 2) mod p. */
  lemma HalveMod(n: int, p: nat)
    requires p >= 1
    ensures n % (2 * p) == n % 2 + 2 * ((n / 2) % p)
  {
    var q, r := n / 2, n % 2;
    var a, b := q / p, q % p;
    assert n == 2 * q + r;
    assert q == p * a + b;
    assert n == (2 * p) * a + (r + 2 * b);
    ModOfMultiplePlus(n, 2 * p, a, r + 2 * b);
  }

  lemma {:induction false} FromIntOfToNat(b: seq<bool>)
    ensures FromInt(ToNat(b), |b|) == b
  {
    if b != [] {
      FromIntOfToNat(b[1..]);
      var n := ToNat(b);
      assert n % 2 == (if b[0] then 1 else 0) && n / 2 == ToNat(b[1..]);
      FromIntStep(n, |b|);
      assert b == [b[0]] + b[1..];
    }
  }

  /** The top bit of a word carries weight 2^31. */
  lemma {:induction false} ToNatSplit(b: seq<bool>)
    requires |b| >= 1
    ensures ToNat(b) == ToNat(b[..|b| - 1]) + (if b[|b| - 1] then Pow2(|b| - 1) else 0)
  {
    if |b| > 1 {
      ToNatSplit(b[1..]);
      assert b[1..][..|b| - 2] == b[..|b| - 1][1..];
    }
  }

  /** The word stored as 4 little-endian bytes (BitConverter.ToInt32 reads it back): 8 bits
      per byte. */
  function WordOfBytes(b: seq<byte>): Word
    requires |b| == 4
  {
    FromInt(Unsigned(b), 8 * |b|)
  }

  /** SetBytes of an int: its 4 little-endian bytes. */
  function BytesOfWord(x: Word): (r: seq<byte>)
    ensures |r| == 4
  {
    LittleEndian(ToNat(x), 4)
  }

  /** Reading a word from four bytes and storing it back writes the same four bytes. */
  lemma BytesOfWordOfBytes(b: seq<byte>)
    requires |b| == 4
    ensures BytesOfWord(WordOfBytes(b)) == b
  {
    PowersAgree();
    ToNatOfFromInt(Unsigned(b), 8 * |b|);
    ModOfMultiplePlus(Unsigned(b), Pow2(32), 0, Unsigned(b));
    LittleEndianOfUnsigned(b);
  }

  /** Storing a word and reading it back gives the same word. */
  lemma WordOfBytesOfWord(x: Word)
    ensures WordOfBytes(BytesOfWord(x)) == x
  {
    PowersAgree();
    ToNatBound(x);
    UnsignedOfLittleEndian(ToNat(x), 4);
    ModOfMultiplePlus(ToNat(x), Pow256(4), 0, ToNat(x));
    FromIntOfToNat(x);
  }

  /** The int that SetBytes stores is the word's signed value; its bytes are the word's. */
  lemma BytesOfSigned(x: Word)
    ensures LittleEndian(Signed32(x), 4) == BytesOfWord(x)
  {
    PowersAgree();
    ToNatBound(x);
    LittleEndianMod(Signed32(x), 4);
    LittleEndianMod(ToNat(x), 4);
    ModOfMultiplePlus(Signed32(x), Pow256(4), if x[31] then -1 else 0, ToNat(x));
    ModOfMultiplePlus(ToNat(x), Pow256(4), 0, ToNat(x));
  }

  lemma PowersAgree()
    ensures Pow2(32) == Pow256(4) == TwoTo32
  {
    assert Pow2(8) == 256;
    assert Pow2(16) == 256 * 256 by { Pow2Add(8, 8); }
    assert Pow2(32) == 256 * 256 * 256 * 256 by { Pow2Add(16, 16); }
  }

  lemma {:induction false} Pow2Add(a: nat, b: nat)
    ensures Pow2(a + b) == Pow2(a) * Pow2(b)
  {
    if a > 0 {
      Pow2Add(a - 1, b);
    }
  }

  /** (a p) div (p q) is a div q. */
  lemma MulDivCancel(a: int, p: nat, q: nat)
    requires p >= 1 && q >= 1
    ensures (a * p) / (p * q) == a / q
  {
    var c, r := a / q, a % q;
    assert a == q * c + r;
    assert a * p == (p * q) * c + p * r;
    MulMonotone(p, q - r);
    assert p * (q - r) == p * q - p * r;
    ModOfMultiplePlus(a * p, p * q, c, p * r);
  }

  /** (a div p) div q is a div (p q): flooring twice is flooring once. */
  lemma DivDiv(a: int, p: nat, q: nat)
    requires p >= 1 && q >= 1
    ensures (a / p) / q == a / (p * q)
  {
    var b, r := a / p, a % p;
    var c, t := b / q, b % q;
    assert a == p * b + r;
    assert b == q * c + t;
    assert a == (p * q) * c + (p * t + r);
    MulMonotone(p, q - t);
    assert p * (q - t) == p * q - p * t;
    ModOfMultiplePlus(a, p * q, c, p * t + r);
  }

  /** Bit i of v 2^n is bit i - n of v, and clear below n. */
  lemma ShiftedBit(v: int, n: nat, i: nat)
    requires i < 32
    ensures FromInt(v * Pow2(n), 32)[i] == (n <= i && FromInt(v, 32)[i - n])
  {
    ShiftedParity(v, n, i);
  }

  lemma ShiftedParity(v: int, n: nat, i: nat)
    ensures ((v * Pow2(n)) / Pow2(i)) % 2 == 1 <==> n <= i && (v / Pow2(i - n)) % 2 == 1
  {
    if n <= i {
      Pow2Add(n, i - n);
      MulDivCancel(v, Pow2(n), Pow2(i - n));
    } else {
      ShiftedLow(v, n, i);
    }
  }

  /** Below the shift, v 2^n holds an even multiple of 2^i. */
  lemma ShiftedLow(v: int, n: nat, i: nat)
    requires i < n
    ensures ((v * Pow2(n)) / Pow2(i)) % 2 == 0
  {
    var d := n - i;
    Pow2Add(i, d);
    var p, e := Pow2(i), Pow2(d - 1);
    assert Pow2(n) == p * (2 * e);
    Regroup3(v, p, e);
    ModOfMultiplePlus(v * Pow2(n), p, 2 * (v * e), 0);
    ModOfMultiplePlus(2 * (v * e), 2, v * e, 0);
  }

  lemma Regroup3(v: int, p: int, e: int)
    ensures v * (p * (2 * e)) == p * (2 * (v * e))
  {
  }

  /** `x << n` as a number: the word's value times 2^n, cut to 32 bits. */
  lemma ShiftLeftValue(x: Word, n: nat)
    requires n < 32
    ensures ToNat(ShiftLeft(x, n)) == ToNat(x) * Pow2(n) % TwoTo32
  {
    var v := ToNat(x);
    FromIntOfToNat(x);
    forall i | 0 <= i < 32
      ensures ShiftLeft(x, n)[i] == FromInt(v * Pow2(n), 32)[i]
    {
      ShiftedBit(v, n, i);
    }
    assert ShiftLeft(x, n) == FromInt(v * Pow2(n), 32);
    ToNatOfFromInt(v * Pow2(n), 32);
    PowersAgree();
  }

  /** Taking an even multiple of 2^i off a number keeps its bit i. */
  lemma ParityOff(a: int, i: nat, f: int)
    ensures ((a - Pow2(i) * (2 * f)) / Pow2(i)) % 2 == (a / Pow2(i)) % 2
  {
    var p := Pow2(i);
    var y := a / p;
    ModOfMultiplePlus(a - p * (2 * f), p, y - 2 * f, a % p);
    ModOfMultiplePlus(y - 2 * f, 2, y / 2 - f, y % 2);
  }

  /** The bits of a word are the two's-complement bits of its signed value. */
  lemma SignedBits(x: Word)
    ensures FromInt(Signed32(x), 32) == x
  {
    FromIntOfToNat(x);
    if x[31] {
      var a := ToNat(x);
      forall i | 0 <= i < 32
        ensures FromInt(a - TwoTo32, 32)[i] == FromInt(a, 32)[i]
      {
        Pow2Add(i, 32 - i);
        Pow2Add(1, 31 - i);
        PowersAgree();
        assert TwoTo32 == Pow2(i) * (2 * Pow2(31 - i));
        ParityOff(a, i, Pow2(31 - i));
      }
    }
  }

  /** Flooring division by p >= 1 moves a number toward zero and keeps its sign. */
  lemma DivBounds(s: int, p: nat)
    requires p >= 1
    ensures s >= 0 ==> 0 <= s / p <= s
    ensures s < 0 ==> s <= s / p < 0
  {
    var q, r := s / p, s % p;
    assert s == p * q + r && 0 <= r < p;
    assert p * q == (p - 1) * q + q;
    if q < 0 {
      if p > 1 {
        MulMonotone(p - 1, -q);
        assert (p - 1) * q <= -(p - 1);
      }
      assert s <= q;
    } else if q > 0 {
      MulMonotone(p, q);
      MulMonotone(q, p);
      assert s >= q;
    }
  }

  /** A number within the signed range comes back from its two's-complement bits. */
  lemma Signed32OfFromInt(m: int)
    requires -0x8000_0000 <= m < 0x8000_0000
    ensures Signed32(FromInt(m, 32)) == m
  {
    PowersAgree();
    assert Pow2(31) == 0x8000_0000;
    ToNatOfFromInt(m, 32);
    if m >= 0 {
      ModOfMultiplePlus(m, Pow2(31), 0, m);
      ModOfMultiplePlus(m, TwoTo32, 0, m);
    } else {
      ModOfMultiplePlus(m, Pow2(31), -1, m + 0x8000_0000);
      ModOfMultiplePlus(m, TwoTo32, -1, m + TwoTo32);
    }
  }

  /** The sign bit is set exactly when the signed value is negative. */
  lemma SignBit(x: Word)
    ensures x[31] <==> Signed32(x) < 0
  {
    ToNatBound(x);
    PowersAgree();
  }

  /** A signed 32-bit number divided by 2^32 or more: -1 when negative, 0 otherwise. */
  lemma DivPastWord(s: int, big: int)
    requires -0x8000_0000 <= s < 0x8000_0000 && big >= TwoTo32
    ensures s / big == if s < 0 then -1 else 0
  {
    if s >= 0 {
      ModOfMultiplePlus(s, big, 0, s);
    } else {
      ModOfMultiplePlus(s, big, -1, s + big);
    }
  }

  /** 2^k is at least 2^32 from k = 32 on. */
  lemma Pow2AtLeast(k: nat)
    requires k >= 32
    ensures Pow2(k) >= TwoTo32
  {
    Pow2Add(32, k - 32);
    PowersAgree();
    MulMonotone(TwoTo32, Pow2(k - 32));
  }

  /** Bit i of s div 2^n, for a signed 32-bit s: bit i + n of s while that is inside the
      word, and the sign of s above. */
  lemma ShiftedDownBit(x: Word, n: nat, i: nat)
    requires n < 32 && i < 32
    ensures FromInt(Signed32(x) / Pow2(n), 32)[i] == if i + n < 32 then x[i + n] else x[31]
  {
    var s := Signed32(x);
    var m := s / Pow2(n);
    DivDiv(s, Pow2(n), Pow2(i));
    Pow2Add(n, i);
    var t := s / Pow2(n + i);
    assert FromInt(m, 32)[i] == (t % 2 == 1);
    if i + n < 32 {
      ShiftedDownInside(x, i + n);
    } else {
      ShiftedDownPast(x, n + i);
    }
  }

  lemma ShiftedDownInside(x: Word, k: nat)
    requires k < 32
    ensures x[k] == ((Signed32(x) / Pow2(k)) % 2 == 1)
  {
    SignedBits(x);
    assert x[k] == FromInt(Signed32(x), 32)[k];
  }

  lemma ShiftedDownPast(x: Word, k: nat)
    requires k >= 32
    ensures x[31] == ((Signed32(x) / Pow2(k)) % 2 == 1)
  {
    Pow2AtLeast(k);
    DivPastWord(Signed32(x), Pow2(k));
    SignBit(x);
  }

  /** `x >> n` on an int as a number: the signed value divided by 2^n, rounded down. */
  lemma ShiftRightValue(x: Word, n: nat)
    requires n < 32
    ensures Signed32(ShiftRightArithmetic(x, n)) == Signed32(x) / Pow2(n)
  {
    var m := Signed32(x) / Pow2(n);
    forall i | 0 <= i < 32
      ensures ShiftRightArithmetic(x, n)[i] == FromInt(m, 32)[i]
    {
      ShiftedDownBit(x, n, i);
    }
    assert ShiftRightArithmetic(x, n) == FromInt(m, 32);
    DivBounds(Signed32(x), Pow2(n));
    Signed32OfFromInt(m);
  }

  /** BitConverter.ToUInt32 of four bytes is the value of the word they store. */
  lemma UInt32OfWord(b: seq<byte>)
    requires |b| == 4
    ensures UInt32(b) == ToNat(WordOfBytes(b))
  {
    PowersAgree();
    ToNatOfFromInt(Unsigned(b), 32);
    ModOfMultiplePlus(Unsigned(b), TwoTo32, 0, Unsigned(b));
  }
}
