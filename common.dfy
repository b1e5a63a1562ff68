/** Values, bytes and little-endian transcoding shared by every part of the model.
    The native sound-alias structure is read and written with BitConverter and raw
    pointer stores, which on the target machine are little-endian. */
module Common {

  datatype Option<T> = None | Some(value: T)

  /** A property value of a sound alias: C# null, a double, or a string.
      Doubles are modelled as exact reals. */
  datatype Value = Unset | Number(x: real) | Text(s: string)

  /** Why a write-back or a list access throws. */
  datatype Error =
    | Overflow          // Convert.ToByte/ToInt16/ToUInt16/ToUInt32 on an out-of-range double
    | InvalidCast       // unboxing a property value of the wrong shape
    | IndexOutOfRange   // List indexer with index -1 (an empty source list)

  datatype Result<T> = Ok(value: T) | Err(error: Error)

  type byte = x: int | 0 <= x < 256
  type u32 = x: int | 0 <= x < 0x1_0000_0000

  const TwoTo32: int := 0x1_0000_0000

  /** 256^n, the number of values n bytes can hold. */
  function Pow256(n: nat): (r: nat)
    ensures r >= 1
  {
    if n == 0 then 1 else 256 * Pow256(n - 1)
  }

  /** BitConverter.ToUInt32: the unsigned value of four little-endian bytes. */
  function UInt32(s: seq<byte>): (r: u32)
    requires |s| == 4
    ensures r == Unsigned(s)
  {
    assert Pow256(4) == TwoTo32;
    Unsigned(s)
  }

  /** The n little-endian bytes of x in two's complement (SetBytes of an n-byte integer). */
  function LittleEndian(x: int, n: nat): (r: seq<byte>)
    ensures |r| == n
    decreases n
  {
    if n == 0 then [] else [x % 256] + LittleEndian(x / 256, n - 1)
  }

  /** The unsigned value of little-endian bytes (BitConverter.ToUInt16/ToUInt32). */
  function Unsigned(s: seq<byte>): (r: nat)
    ensures r < Pow256(|s|)
  {
    if s == [] then 0 else s[0] + 256 * Unsigned(s[1..])
  }

  /** The signed value of little-endian bytes (BitConverter.ToInt16/ToInt32/ToInt64). */
  function Signed(s: seq<byte>): (r: int)
    requires |s| > 0
    ensures 0 <= r + Pow256(|s|) / 2 && r < Pow256(|s|) / 2
  {
    var u := Unsigned(s);
    if u < Pow256(|s|) / 2 then u else u - Pow256(|s|)
  }

  /** Reading back what SetBytes stored gives the stored integer modulo 256^n. */
  lemma {:induction false} UnsignedOfLittleEndian(x: int, n: nat)
    ensures Unsigned(LittleEndian(x, n)) == x % Pow256(n)
    decreases n
  {
    if n > 0 {
      var q, a := x / 256, x % 256;
      var p := Pow256(n - 1);
      UnsignedOfLittleEndian(q, n - 1);
      assert LittleEndian(x, n)[1..] == LittleEndian(q, n - 1);
      assert Unsigned(LittleEndian(x, n)) == a + 256 * (q % p);
      Regroup(x, q, a, p);
      ModOfMultiplePlus(x, 256 * p, q / p, a + 256 * (q % p));
    }
  }

  /** x == 256 q + a with q == p (q / p) + q % p, regrouped around 256 p. */
  lemma Regroup(x: int, q: int, a: int, p: int)
    requires p >= 1 && q == x / 256 && a == x % 256
    ensures x == 256 * p * (q / p) + (a + 256 * (q % p))
    ensures 0 <= a + 256 * (q % p) < 256 * p
  {
    var c, b := q / p, q % p;
    assert x == 256 * q + a;
    assert q == p * c + b;
    calc {
      x;
      256 * (p * c + b) + a;
      { assert 256 * (p * c + b) == 256 * p * c + 256 * b; }
      256 * p * c + (a + 256 * b);
    }
    assert 256 * b <= 256 * (p - 1);
  }

  lemma ModOfMultiplePlus(x: int, m: int, k: int, r: int)
    requires m > 0 && 0 <= r < m && x == m * k + r
    ensures x % m == r && x / m == k
  {
    var q, r' := x / m, x % m;
    assert m * (k - q) == r' - r;
    if k > q {
      MulMonotone(m, k - q);
    } else if k < q {
      MulMonotone(m, q - k);
    }
  }

  lemma MulMonotone(m: int, d: int)
    requires m > 0 && d >= 1
    ensures m * d >= m
  {
  }

  /** Storing the bytes one just read rewrites them unchanged. */
  lemma {:induction false} LittleEndianOfUnsigned(s: seq<byte>)
    ensures LittleEndian(Unsigned(s), |s|) == s
  {
    if s != [] {
      var u := Unsigned(s);
      assert u % 256 == s[0] && u / 256 == Unsigned(s[1..]);
      LittleEndianOfUnsigned(s[1..]);
    }
  }

  /** A value congruent modulo 256^n stores the same n bytes. */
  lemma {:induction false} LittleEndianMod(x: int, n: nat)
    ensures LittleEndian(x, n) == LittleEndian(x % Pow256(n), n)
  {
    UnsignedOfLittleEndian(x, n);
    LittleEndianOfUnsigned(LittleEndian(x, n));
    assert x % Pow256(n) < Pow256(n);
    ModOfMultiplePlus(x % Pow256(n), Pow256(n), 0, x % Pow256(n));
    UnsignedOfLittleEndian(x % Pow256(n), n);
    LittleEndianOfUnsigned(LittleEndian(x % Pow256(n), n));
  }

  /** The n bytes of b starting at offset o. */
  function Slice(b: seq<byte>, o: int, n: nat): (r: seq<byte>)
    requires 0 <= o && o + n <= |b|
    ensures |r| == n && forall k :: 0 <= k < n ==> r[k] == b[o + k]
  {
    b[o..o + n]
  }

  /** b with the bytes at offset o replaced by s (an unaligned pointer store). */
  function Splice(b: seq<byte>, o: int, s: seq<byte>): (r: seq<byte>)
    requires 0 <= o && o + |s| <= |b|
    ensures |r| == |b|
    ensures forall k :: 0 <= k < |b| ==> r[k] == if o <= k < o + |s| then s[k - o] else b[k]
  {
    b[..o] + s + b[o + |s|..]
  }
}
