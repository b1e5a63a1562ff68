/** SoundAlias.HashString: the 32-bit name hash the game stores for duck and context values.
    A string of the form "HASH_<decimal>" stands for the hash it spells out; every other
    string is folded from the seed 5381, one character at a time, with C#'s unchecked
    32-bit arithmetic written out. */
module Hashing {
  import opened Common
  import opened Text
  import Bits

  const Seed: u32 := 5381
  const HashPrefix: string := "HASH_"

  /** `(int)u` for a uint: the same 32 bits read as a signed int. */
  function AsInt32(u: u32): (r: int)
    ensures -0x8000_0000 <= r < 0x8000_0000
    ensures (r - u) % TwoTo32 == 0
  {
    if u < 0x8000_0000 then u else u - TwoTo32
  }

  /** Unchecked int arithmetic: the exact result wrapped into [-2^31, 2^31). */
  function WrapInt32(x: int): (r: int)
    ensures -0x8000_0000 <= r < 0x8000_0000
    ensures (r - x) % TwoTo32 == 0
  {
    var u := x % TwoTo32;
    if u < 0x8000_0000 then u else u - TwoTo32
  }

  /** `(uint)x` for an int, and unchecked uint arithmetic: the exact result modulo 2^32. */
  function WrapUInt32(x: int): (r: u32)
    ensures (r - x) % TwoTo32 == 0
  {
    x % TwoTo32
  }

  /** `x << n` on an int: x times 2^n, wrapped. */
  function ShiftLeftInt32(x: int, n: nat): (r: int)
    requires n < 32
    ensures (r - x * Bits.Pow2(n)) % TwoTo32 == 0
  {
    WrapInt32(x * Bits.Pow2(n))
  }

  /** One step of the loop as the source writes it:
      `(uint)(value[i] + ((int)result << 6) + ((int)result << 16)) - result`. */
  function SourceStep(h: u32, c: char): u32 {
    var wide := WrapInt32(WrapInt32(c as int + ShiftLeftInt32(AsInt32(h), 6)) + ShiftLeftInt32(AsInt32(h), 16));
    WrapUInt32(WrapUInt32(wide) - h)
  }

  /** The step in closed form: h' = (c + 65599 h) mod 2^32. */
  function Mix(h: u32, c: char): u32 {
    (c as int + 65599 * h) % TwoTo32
  }

  /** The fold of Mix over s[i..], starting from h. */
  function HashFrom(s: string, i: nat, h: u32): u32
    requires i <= |s|
    decreases |s| - i
  {
    if i == |s| then h else HashFrom(s, i + 1, Mix(h, s[i]))
  }

  /** The value HashString computes. Text that does not spell out a hash is folded one
      character at a time: its last character turns the hash of the rest into
      (c + 65599 h) mod 2^32. */
  function HashValue(s: string): (r: u32)
    ensures !StartsWith(s, HashPrefix) && |s| > 0 ==> r == Mix(HashFrom(s[..|s| - 1], 0, Seed), s[|s| - 1])
  {
    if StartsWith(s, HashPrefix) && ParseUInt32(RemoveAll(s, HashPrefix)).Some? then
      ParseUInt32(RemoveAll(s, HashPrefix)).value
    else
      HashFromLast(s);
      HashFrom(s, 0, Seed)
  }

  /** The fold over non-empty text is one step applied to the fold over all but its last
      character. */
  lemma HashFromLast(s: string)
    ensures |s| > 0 ==> HashFrom(s, 0, Seed) == Mix(HashFrom(s[..|s| - 1], 0, Seed), s[|s| - 1])
  {
    if |s| > 0 {
      HashFromSnoc(s[..|s| - 1], s[|s| - 1], 0, Seed);
      assert s[..|s| - 1] + [s[|s| - 1]] == s;
    }
  }

  /** Folding one more character onto the end applies one more step. */
  lemma {:induction false} HashFromSnoc(s: string, c: char, i: nat, h: u32)
    requires i <= |s|
    ensures HashFrom(s + [c], i, h) == Mix(HashFrom(s, i, h), c)
    decreases |s| - i
  {
    if i < |s| {
      assert (s + [c])[i] == s[i];
      HashFromSnoc(s, c, i + 1, Mix(h, s[i]));
    }
  }

  /** The source's shifts, additions and casts all agree modulo 2^32, so its step is Mix. */
  lemma StepClosedForm(h: u32, c: char)
    ensures SourceStep(h, c) == Mix(h, c)
  {
    var k := StepCongruent(h, c);
    ModOfMultiplePlus(c as int + 65599 * h, TwoTo32, -k, SourceStep(h, c));
  }

  /** The source's step differs from c + 65599 h by a multiple of 2^32. */
  lemma StepCongruent(h: u32, c: char) returns (k: int)
    ensures SourceStep(h, c) == TwoTo32 * k + (c as int + 65599 * h)
  {
    var a := AsInt32(h);
    var s6, s16 := ShiftLeftInt32(a, 6), ShiftLeftInt32(a, 16);
    var t := WrapInt32(c as int + s6);
    var x := WrapInt32(t + s16);
    var u := WrapUInt32(x);
    var y := WrapUInt32(u - h);
    assert SourceStep(h, c) == y;
    var ka := AsInt32Quotient(h);
    var k5 := ShiftQuotient(a, 6);
    var k6 := ShiftQuotient(a, 16);
    var k4 := WrapInt32Quotient(c as int + s6);
    var k3 := WrapInt32Quotient(t + s16);
    var k2 := WrapUInt32Quotient(x);
    var k1 := WrapUInt32Quotient(u - h);
    k := k1 + k2 + k3 + k4 + k5 + k6 + 65600 * ka;
  }

  /** The quotient of a multiple of 2^32. */
  lemma Quotient(d: int) returns (k: int)
    requires d % TwoTo32 == 0
    ensures d == TwoTo32 * k
  {
    k := d / TwoTo32;
  }

  /** Each cast and each unchecked operation moves its value by a multiple of 2^32. */
  lemma AsInt32Quotient(u: u32) returns (k: int)
    ensures AsInt32(u) == u + TwoTo32 * k
  {
    k := Quotient(AsInt32(u) - u);
  }

  lemma WrapInt32Quotient(x: int) returns (k: int)
    ensures WrapInt32(x) == x + TwoTo32 * k
  {
    k := Quotient(WrapInt32(x) - x);
  }

  lemma WrapUInt32Quotient(x: int) returns (k: int)
    ensures WrapUInt32(x) == x + TwoTo32 * k
  {
    k := Quotient(WrapUInt32(x) - x);
  }

  /** A shift of an int by 6 or 16 bits multiplies by 64 or 65536, up to a multiple of 2^32. */
  lemma ShiftQuotient(x: int, n: nat) returns (k: int)
    requires n == 6 || n == 16
    ensures ShiftLeftInt32(x, n) == (if n == 6 then 64 else 65536) * x + TwoTo32 * k
  {
    assert Bits.Pow2(6) == 64 && Bits.Pow2(16) == 65536;
    k := Quotient(ShiftLeftInt32(x, n) - x * Bits.Pow2(n));
  }

  /** SoundAlias.HashString. */
  method HashString(value: string) returns (r: u32)
    ensures r == HashValue(value)
  {
    if StartsWith(value, HashPrefix) {
      var parsed := ParseUInt32(RemoveAll(value, HashPrefix));
      if parsed.Some? {
        return parsed.value;
      }
    }
    var result := Seed;
    var i := 0;
    while i < |value|
      invariant 0 <= i <= |value|
      invariant HashFrom(value, i, result) == HashFrom(value, 0, Seed)
    {
      StepClosedForm(result, value[i]);
      result := SourceStep(result, value[i]);
      i := i + 1;
    }
    return result;
  }

  /** Removing "HASH_" from "HASH_" followed by digits leaves the digits. */
  lemma RemovePrefixOfDigits(digits: string)
    requires AllDigits(digits)
    ensures RemoveAll(HashPrefix + digits, HashPrefix) == digits
  {
    var s := HashPrefix + digits;
    assert s[..|HashPrefix|] == HashPrefix;
    assert s[|HashPrefix|..] == digits;
    RemoveAllAbsent(digits, HashPrefix);
  }

  /** A hash written out as "HASH_<decimal>" hashes back to itself, for every 32-bit value. */
  lemma HashOfHashName(h: u32)
    ensures HashValue(HashPrefix + Decimal(h)) == h
  {
    RemovePrefixOfDigits(Decimal(h));
    ParseDecimal(h);
  }
}
