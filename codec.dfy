/** The value side of SoundAlias: how one column is decoded from the 216-byte structure
    (DeserializeFromBo3), which integer SerializeToBo3 stores back for it and where, how a CSV
    cell becomes a property value (DeserializeFromCSV) and how template defaults fill a record
    (SetFromTemplate). Doubles are exact reals; the floating-point library calls are the
    fields of a Numerics value. */
module Codec {
  import opened Common
  import opened Text
  import opened Schema
  import opened Bits
  import opened Hashing
  import opened Lookup

  /** The floating-point collaborators: Math.Log(a, b), Math.Pow(a, b), `(float)` rounding of
      a double, the bits a float is stored as, BitConverter.ToSingle widened to a double, and
      double.TryParse. */
  datatype Numerics = Numerics(
    log: (real, real) -> real,
    pow: (real, real) -> real,
    toSingle: real -> real,
    singleBits: real -> u32,
    singleOfBits: u32 -> real,
    parseDouble: string -> Option<real>)

  /** Math.Round to an integer with MidpointRounding.ToEven. */
  function RoundHalfEven(x: real): (r: int)
    ensures -0.5 <= x - r as real <= 0.5
    ensures x - r as real == 0.5 || r as real - x == 0.5 ==> r % 2 == 0
  {
    var f := x.Floor;
    var d := x - f as real;
    if d < 0.5 then f else if d > 0.5 then f + 1 else if f % 2 == 0 then f else f + 1
  }

  /** Convert.ToByte/ToInt16/ToUInt16/ToUInt32 on a double: round half to even, then throw
      OverflowException when the result is outside the target type. */
  function ConvertTo(x: real, lo: int, hi: int): (r: Result<int>)
    ensures r.Ok? <==> lo <= RoundHalfEven(x) <= hi
    ensures r.Ok? ==> r.value == RoundHalfEven(x)
    ensures r.Err? ==> r.error == Overflow
  {
    var n := RoundHalfEven(x);
    if lo <= n <= hi then Ok(n) else Err(Overflow)
  }

  /** A whole number converts to itself. */
  lemma RoundWhole(n: int)
    ensures RoundHalfEven(n as real) == n
  {
  }

  /** An explicit cast of a double to an integer type truncates toward zero. */
  function Truncate(x: real): (r: int)
    ensures 0.0 <= x ==> 0 <= r && r as real <= x < r as real + 1.0
    ensures x < 0.0 ==> r <= 0 && r as real - 1.0 < x <= r as real
  {
    if x >= 0.0 then x.Floor else -((-x).Floor)
  }

  /** `(ushort)d`: the truncated value, wrapped to 16 bits. */
  function CastUShort(x: real): (r: int)
    ensures 0 <= r < 0x1_0000
    ensures 0.0 <= x < 65536.0 ==> r == Truncate(x)
  {
    Truncate(x) % 0x1_0000
  }

  /** `(byte)d`: the truncated value, wrapped to 8 bits. */
  function CastByte(x: real): (r: int)
    ensures 0 <= r < 0x100
    ensures 0.0 <= x < 256.0 ==> r == Truncate(x)
  {
    Truncate(x) % 0x100
  }

  /** Math.Round(x, 2). */
  function RoundTwoDigits(x: real): real {
    RoundHalfEven(x * 100.0) as real / 100.0
  }

  /** SoundAlias.ConvertFromFloatDBSPL: a linear gain as decibels, 0 for a non-positive gain. */
  function ConvertFromFloatDBSPL(env: Numerics, input: real): (r: real)
    ensures input <= 0.0 ==> r == 0.0
  {
    if input > 0.0 then RoundTwoDigits(env.log(input, 10.0) / 0.05 + 100.0) else 0.0
  }

  /** SoundAlias.ConvertToFloatDBSPL: decibels as a linear gain, 0 for non-positive decibels. */
  function ConvertToFloatDBSPL(env: Numerics, input: real): (r: real)
    ensures input <= 0.0 ==> r == 0.0
  {
    if input > 0.0 then env.pow(10.0, (input - 100.0) * 0.05) else 0.0
  }

  /** SoundAlias.ConvertFromCents: Math.Ceiling(Math.Log(input / 32767, 2) * 1200). */
  function ConvertFromCents(env: Numerics, input: int): real {
    -((-(env.log(input as real / 32767.0, 2.0) * 1200.0)).Floor) as real
  }

  /** SoundAlias.ConvertToCents: `(ushort)(Math.Pow(2, input / 1200) * 32767)`. */
  function ConvertToCents(env: Numerics, input: real): (r: int)
    ensures 0 <= r < 0x1_0000
  {
    CastUShort(env.pow(2.0, input / 1200.0) * 32767.0)
  }

  /** The column lies inside the buffer. */
  predicate InBuffer(d: Descriptor, buf: seq<byte>) {
    0 <= d.offset && d.offset + Width(d.kind) <= |buf|
  }

  /** The bytes of the column. */
  function Bytes(d: Descriptor, buf: seq<byte>): (r: seq<byte>)
    requires InBuffer(d, buf)
    ensures |r| == Width(d.kind)
  {
    Slice(buf, d.offset, Width(d.kind))
  }

  /** The index a bit-packed column holds: DecodeArrayBits on the word at the column's offset. */
  function WindowIndex(d: Descriptor, buf: seq<byte>): int
    requires InBuffer(d, buf) && Width(d.kind) == 4
  {
    Signed32(DecodeArrayBits(WordOfBytes(Bytes(d, buf)), d.minimum, d.maximum))
  }

  /** One case of DeserializeFromBo3's switch: the value a column decodes to. `readText` is
      ReadNullTerminatedString on the target process. */
  function DecodeField(env: Numerics, readText: int -> string, tables: Tables, d: Descriptor, buf: seq<byte>): (r: Value)
    requires InBuffer(d, buf)
    ensures r != Unset && Fits(d.kind, r)
  {
    var b := Bytes(d, buf);
    match d.kind
    case String => Text(readText(Signed(b)))
    case Float => Number(env.singleOfBits(UInt32(b)))
    case Int => Number(Unsigned(b) as real)
    case Enum | Flag => Text(GetArrayValue(tables.arrays, d.arrayName, Signed(b)))
    case UShortDBSPL => Number(ConvertFromFloatDBSPL(env, Unsigned(b) as real / 65535.0))
    case FloatDBSPL => Number(ConvertFromFloatDBSPL(env, env.singleOfBits(UInt32(b))))
    case Cents => Number(ConvertFromCents(env, Unsigned(b)))
    case Hash => Text(LookUpHash(tables.hashes, UInt32(b)))
    case EnumBits | FlagBits => Text(GetArrayValue(tables.arrays, d.arrayName, WindowIndex(d, buf)))
    case Byte => Number(b[0] as real)
    case EnumByte => Text(GetArrayValue(tables.arrays, d.arrayName, b[0]))
    case Short => Number(Signed(b) as real)
    case UShort => Number(Unsigned(b) as real)
    case NormByte => Number(env.toSingle(b[0] as real / 255.0))
    case Distance => Number(Unsigned(b) as real * 2.0)
  }

  /** One case of SerializeToBo3's switch for a column that has one: the integer SetBytes
      stores in the column's bytes (for a float, its bit pattern), or the exception. A value
      of the wrong shape fails its cast. */
  function StoredInt(env: Numerics, tables: Tables, d: Descriptor, v: Value, buf: seq<byte>): (r: Result<int>)
    requires InBuffer(d, buf) && d.kind != String
    ensures r.Err? ==> r.error == Overflow || r.error == InvalidCast
  {
    match d.kind
    case Float | FloatDBSPL =>
      if v.Number? then Ok(env.singleBits(ConvertToFloatDBSPL(env, v.x))) else Err(InvalidCast)
    case Int => if v.Number? then ConvertTo(v.x, 0, 0xFFFF_FFFF) else Err(InvalidCast)
    case Enum | Flag => if v.Text? then Ok(LookUpArrayIndex(tables.arrays, d.arrayName, v.s)) else Err(InvalidCast)
    case UShortDBSPL =>
      if v.Number? then Ok(CastUShort(ConvertToFloatDBSPL(env, v.x) * 65535.0)) else Err(InvalidCast)
    case Cents => if v.Number? then Ok(ConvertToCents(env, v.x)) else Err(InvalidCast)
    case Hash => if v.Text? then Ok(HashValue(v.s)) else Err(InvalidCast)
    case EnumBits | FlagBits =>
      if v.Text? then Ok(Signed32(StoredWord(tables, d, buf, v.s))) else Err(InvalidCast)
    case Byte => if v.Number? then ConvertTo(v.x, 0, 255) else Err(InvalidCast)
    case EnumByte => if v.Text? then Ok(LookUpArrayIndex(tables.arrays, d.arrayName, v.s) % 0x100) else Err(InvalidCast)
    case Short => if v.Number? then ConvertTo(v.x, -0x8000, 0x7FFF) else Err(InvalidCast)
    case UShort => if v.Number? then ConvertTo(v.x, 0, 0xFFFF) else Err(InvalidCast)
    case NormByte => if v.Number? then Ok(CastByte(v.x * 255.0)) else Err(InvalidCast)
    case Distance => if v.Number? then Ok(CastUShort(v.x / 2.0)) else Err(InvalidCast)
  }

  /** The bytes SerializeToBo3 writes at the column's offset: None for a text column, which
      the switch has no case for. */
  function FieldBytes(env: Numerics, tables: Tables, d: Descriptor, v: Value, buf: seq<byte>): (r: Result<Option<seq<byte>>>)
    requires InBuffer(d, buf)
    ensures d.kind == String ==> r == Ok(None)
    ensures r.Ok? && r.value.Some? ==> |r.value.value| == Width(d.kind)
  {
    if d.kind == String then Ok(None)
    else match StoredInt(env, tables, d, v, buf)
      case Ok(n) => Ok(Some(LittleEndian(n, Width(d.kind))))
      case Err(e) => Err(e)
  }

  /** SerializeToBo3 visits the column: it is editable, has a place in the structure and the
      record's property is not null. */
  predicate Encodes(d: Descriptor, v: Value) {
    d.editable && d.offset > -1 && v != Unset
  }

  /** The buffer after a serialisation pass, and the exception that stopped it, if any. */
  datatype Encoded = Encoded(buffer: seq<byte>, error: Option<Error>)

  /** SerializeToBo3 may write byte k for column i. */
  predicate Touches(d: Descriptor, v: Value, k: int) {
    Encodes(d, v) && d.kind != String && d.offset <= k < d.offset + Width(d.kind)
  }

  /** No column from column i on may write byte k. */
  predicate Untouched(values: seq<Value>, i: nat, k: int)
    requires |values| == |Fields|
  {
    forall j :: i <= j < |Fields| ==> !Touches(Fields[j], values[j], k)
  }

  /** One pass of SerializeToBo3's loop: a visited column stores its bytes in place, or
      raises; an exception leaves the buffer as it was, and no byte outside the column's own
      changes. */
  function EncodeColumn(env: Numerics, tables: Tables, d: Descriptor, v: Value, buf: seq<byte>): (r: Encoded)
    requires WellPlaced(d) && |buf| == SizeOfStructure
    ensures |r.buffer| == SizeOfStructure
    ensures r.error.Some? ==> r.buffer == buf && Encodes(d, v)
    ensures r.error.Some? ==> r.error.value == Overflow || r.error.value == InvalidCast
    ensures forall k :: 0 <= k < |buf| && !Touches(d, v, k) ==> r.buffer[k] == buf[k]
  {
    if !Encodes(d, v) then Encoded(buf, None)
    else match FieldBytes(env, tables, d, v, buf)
      case Err(e) => Encoded(buf, Some(e))
      case Ok(None) => Encoded(buf, None)
      case Ok(Some(b)) => Encoded(Splice(buf, d.offset, b), None)
  }

  /** SerializeToBo3's loop from column i on, over the record's values: every visited column
      is stored in place, in declaration order, and the first exception stops the pass with
      the buffer as far as it got. */
  function EncodeFrom(env: Numerics, tables: Tables, values: seq<Value>, buf: seq<byte>, i: nat): (r: Encoded)
    requires |values| == |Fields| && |buf| == SizeOfStructure && i <= |Fields|
    ensures |r.buffer| == SizeOfStructure
    decreases |values| - i
  {
    FieldsWellPlaced();
    if i == |Fields| then Encoded(buf, None)
    else
      var step := EncodeColumn(env, tables, Fields[i], values[i], buf);
      if step.error.Some? then step else EncodeFrom(env, tables, values, step.buffer, i + 1)
  }

  /** Serialisation changes only bytes of editable, placed, non-null, non-text columns: every
      other byte keeps what the buffer held, whether or not the pass completes. */
  lemma {:induction false} EncodeFrame(env: Numerics, tables: Tables, values: seq<Value>, buf: seq<byte>, i: nat, k: int)
    requires |values| == |Fields| && |buf| == SizeOfStructure && i <= |Fields| && 0 <= k < SizeOfStructure
    requires Untouched(values, i, k)
    ensures EncodeFrom(env, tables, values, buf, i).buffer[k] == buf[k]
    decreases |Fields| - i
  {
    FieldsWellPlaced();
    if i < |Fields| {
      var step := EncodeColumn(env, tables, Fields[i], values[i], buf);
      assert !Touches(Fields[i], values[i], k);
      if step.error.None? {
        EncodeFrame(env, tables, values, step.buffer, i + 1, k);
      }
    }
  }

  /** Serialisation raises only the conversion errors: an out-of-range number or a property
      of the wrong shape. */
  lemma {:induction false} EncodeFromRaises(env: Numerics, tables: Tables, values: seq<Value>, buf: seq<byte>, i: nat)
    requires |values| == |Fields| && |buf| == SizeOfStructure && i <= |Fields|
    ensures var e := EncodeFrom(env, tables, values, buf, i).error;
      e.Some? ==> e.value == Overflow || e.value == InvalidCast
    decreases |Fields| - i
  {
    FieldsWellPlaced();
    if i < |Fields| {
      var step := EncodeColumn(env, tables, Fields[i], values[i], buf);
      if step.error.None? {
        EncodeFromRaises(env, tables, values, step.buffer, i + 1);
      }
    }
  }

  /** A record whose values are all null, or all on non-editable columns, leaves the buffer
      as it is. */
  lemma {:induction false} EncodeNothing(env: Numerics, tables: Tables, values: seq<Value>, buf: seq<byte>, i: nat)
    requires |values| == |Fields| && |buf| == SizeOfStructure && i <= |Fields|
    requires forall j :: i <= j < |Fields| ==> !Encodes(Fields[j], values[j])
    ensures EncodeFrom(env, tables, values, buf, i) == Encoded(buf, None)
    decreases |Fields| - i
  {
    if i < |Fields| {
      EncodeNothing(env, tables, values, buf, i + 1);
    }
  }

  /** Re-encoding a freshly decoded Byte column stores the byte it was decoded from. */
  lemma ByteRestores(env: Numerics, readText: int -> string, tables: Tables, d: Descriptor, buf: seq<byte>)
    requires InBuffer(d, buf) && d.kind == Byte
    ensures FieldBytes(env, tables, d, DecodeField(env, readText, tables, d, buf), buf) == Ok(Some(Bytes(d, buf)))
  {
    var b := Bytes(d, buf);
    assert DecodeField(env, readText, tables, d, buf) == Number(b[0] as real);
    RoundWhole(b[0]);
    assert StoredInt(env, tables, d, Number(b[0] as real), buf) == Ok(b[0]);
    assert LittleEndian(b[0], 1) == [b[0]] == b;
  }

  /** Re-encoding a freshly decoded UShort column stores the bytes it was decoded from. */
  lemma UShortRestores(env: Numerics, readText: int -> string, tables: Tables, d: Descriptor, buf: seq<byte>)
    requires InBuffer(d, buf) && d.kind == UShort
    ensures FieldBytes(env, tables, d, DecodeField(env, readText, tables, d, buf), buf) == Ok(Some(Bytes(d, buf)))
  {
    var b := Bytes(d, buf);
    var n := Unsigned(b);
    assert DecodeField(env, readText, tables, d, buf) == Number(n as real);
    RoundWhole(n);
    assert StoredInt(env, tables, d, Number(n as real), buf) == Ok(n);
    LittleEndianOfUnsigned(b);
  }

  /** Re-encoding a freshly decoded Int column stores the bytes it was decoded from. */
  lemma IntRestores(env: Numerics, readText: int -> string, tables: Tables, d: Descriptor, buf: seq<byte>)
    requires InBuffer(d, buf) && d.kind == Int
    ensures FieldBytes(env, tables, d, DecodeField(env, readText, tables, d, buf), buf) == Ok(Some(Bytes(d, buf)))
  {
    var b := Bytes(d, buf);
    var n := UInt32(b);
    assert DecodeField(env, readText, tables, d, buf) == Number(n as real);
    RoundWhole(n);
    assert StoredInt(env, tables, d, Number(n as real), buf) == Ok(n);
    LittleEndianOfUnsigned(b);
  }

  /** Re-encoding a freshly decoded Short column stores the bytes it was decoded from: the
      signed value has the same two bytes as the unsigned one. */
  lemma ShortRestores(env: Numerics, readText: int -> string, tables: Tables, d: Descriptor, buf: seq<byte>)
    requires InBuffer(d, buf) && d.kind == Short
    ensures FieldBytes(env, tables, d, DecodeField(env, readText, tables, d, buf), buf) == Ok(Some(Bytes(d, buf)))
  {
    var b := Bytes(d, buf);
    var n := Signed(b);
    assert DecodeField(env, readText, tables, d, buf) == Number(n as real);
    RoundWhole(n);
    assert StoredInt(env, tables, d, Number(n as real), buf) == Ok(n);
    SignedBytes(b);
  }

  /** Storing the signed value of some bytes stores those bytes. */
  lemma SignedBytes(b: seq<byte>)
    requires |b| > 0
    ensures LittleEndian(Signed(b), |b|) == b
  {
    LittleEndianMod(Signed(b), |b|);
    LittleEndianMod(Unsigned(b), |b|);
    ModOfMultiplePlus(Signed(b), Pow256(|b|), if Signed(b) < 0 then -1 else 0, Unsigned(b));
    ModOfMultiplePlus(Unsigned(b), Pow256(|b|), 0, Unsigned(b));
    LittleEndianOfUnsigned(b);
  }

  /** Re-encoding a freshly decoded Distance (stored halved, read doubled) stores the bytes it
      was decoded from. */
  lemma DistanceRestores(env: Numerics, readText: int -> string, tables: Tables, d: Descriptor, buf: seq<byte>)
    requires InBuffer(d, buf) && d.kind == Distance
    ensures FieldBytes(env, tables, d, DecodeField(env, readText, tables, d, buf), buf) == Ok(Some(Bytes(d, buf)))
  {
    var b := Bytes(d, buf);
    var n := Unsigned(b);
    assert DecodeField(env, readText, tables, d, buf) == Number(n as real * 2.0);
    assert (n as real * 2.0) / 2.0 == n as real;
    assert StoredInt(env, tables, d, Number(n as real * 2.0), buf) == Ok(n);
    LittleEndianOfUnsigned(b);
  }

  /** Re-encoding a freshly decoded Hash column stores the bytes it was decoded from exactly
      when the bank's recovery table recovers the stored hash: an unlisted hash comes back
      through its "HASH_" name, and a listed one only if its name hashes to it. */
  lemma HashRestores(env: Numerics, readText: int -> string, tables: Tables, d: Descriptor, buf: seq<byte>)
    requires InBuffer(d, buf) && d.kind == Hash
    ensures FieldBytes(env, tables, d, DecodeField(env, readText, tables, d, buf), buf) == Ok(Some(Bytes(d, buf)))
        <==> Recovers(tables.hashes, UInt32(Bytes(d, buf)))
  {
    var b := Bytes(d, buf);
    var name := LookUpHash(tables.hashes, UInt32(b));
    assert DecodeField(env, readText, tables, d, buf) == Text(name);
    assert FieldBytes(env, tables, d, Text(name), buf) == Ok(Some(LittleEndian(HashValue(name), 4)));
    WordBytesAgree(HashValue(name), b);
    LookUpHashInverse(tables.hashes, UInt32(b));
  }

  /** A 32-bit value stores as four given bytes exactly when it is their unsigned value. */
  lemma WordBytesAgree(h: u32, b: seq<byte>)
    requires |b| == 4
    ensures LittleEndian(h, 4) == b <==> h == UInt32(b)
  {
    assert Pow256(4) == TwoTo32;
    LittleEndianOfUnsigned(b);
    UnsignedOfLittleEndian(h, 4);
    ModOfMultiplePlus(h, TwoTo32, 0, h);
  }

  /** Re-encoding a freshly decoded EnumByte column whose index names a token of its table
      stores the byte it was decoded from. */
  lemma EnumByteRestores(env: Numerics, readText: int -> string, tables: Tables, d: Descriptor, buf: seq<byte>)
    requires ArraysSound(tables)
    requires InBuffer(d, buf) && d.kind == EnumByte
    requires d.arrayName in tables.arrays && Bytes(d, buf)[0] < |tables.arrays[d.arrayName]|
    ensures FieldBytes(env, tables, d, DecodeField(env, readText, tables, d, buf), buf) == Ok(Some(Bytes(d, buf)))
  {
    var b := Bytes(d, buf);
    var token := GetArrayValue(tables.arrays, d.arrayName, b[0]);
    EnumByteCase(env, readText, tables, d, buf, token);
    assert Proper(tables.arrays[d.arrayName]);
    IndexOfArrayValue(tables.arrays, d.arrayName, b[0]);
    assert LittleEndian(b[0], 1) == [b[0]] == b;
  }

  /** What the switch does for an EnumByte column. */
  lemma EnumByteCase(env: Numerics, readText: int -> string, tables: Tables, d: Descriptor, buf: seq<byte>, token: string)
    requires InBuffer(d, buf) && d.kind == EnumByte
    ensures DecodeField(env, readText, tables, d, buf) == Text(GetArrayValue(tables.arrays, d.arrayName, Bytes(d, buf)[0]))
    ensures FieldBytes(env, tables, d, Text(token), buf) == Ok(Some(LittleEndian(LookUpArrayIndex(tables.arrays, d.arrayName, token) % 0x100, 1)))
  {
  }

  /** The word a bit-packed column is stored into when it takes this token: EncodeArrayBits
      of the token's index into the word at the column's offset. */
  function StoredWord(tables: Tables, d: Descriptor, buf: seq<byte>, token: string): Word
    requires InBuffer(d, buf) && Width(d.kind) == 4
  {
    var word := WordOfBytes(Bytes(d, buf));
    EncodeArrayBits(word, d.minimum, d.maximum, FromInt(LookUpArrayIndex(tables.arrays, d.arrayName, token), |word|))
  }

  /** What DeserializeFromBo3's switch does for a bit-packed column. */
  lemma WindowDecodes(env: Numerics, readText: int -> string, tables: Tables, d: Descriptor, buf: seq<byte>)
    requires InBuffer(d, buf) && IsBitWindow(d.kind)
    ensures DecodeField(env, readText, tables, d, buf) == Text(GetArrayValue(tables.arrays, d.arrayName, WindowIndex(d, buf)))
  {
    assert Width(d.kind) == 4;
    if d.kind == EnumBits {
      assert DecodeField(env, readText, tables, d, buf) == Text(GetArrayValue(tables.arrays, d.arrayName, WindowIndex(d, buf)));
    }
  }

  /** What SerializeToBo3's switch does for a bit-packed column, in terms of words. */
  lemma WindowStores(env: Numerics, tables: Tables, d: Descriptor, buf: seq<byte>, token: string)
    requires InBuffer(d, buf) && IsBitWindow(d.kind)
    ensures FieldBytes(env, tables, d, Text(token), buf) == Ok(Some(LittleEndian(Signed32(StoredWord(tables, d, buf, token)), 4)))
  {
    assert Width(d.kind) == 4;
    assert StoredInt(env, tables, d, Text(token), buf) == Ok(Signed32(StoredWord(tables, d, buf, token)));
  }

  /** Re-encoding a freshly decoded bit-packed column whose window fits its word and whose
      index names a token of its table stores the word it was decoded from: the window gets
      its own index back and the other bits are kept. */
  lemma WindowRestores(env: Numerics, readText: int -> string, tables: Tables, d: Descriptor, buf: seq<byte>)
    requires ArraysSound(tables)
    requires InBuffer(d, buf) && IsBitWindow(d.kind)
    requires 0 <= d.minimum <= 31 && 0 <= d.maximum && d.minimum + d.maximum <= 32
    requires d.arrayName in tables.arrays && WindowIndex(d, buf) < |tables.arrays[d.arrayName]|
    ensures FieldBytes(env, tables, d, DecodeField(env, readText, tables, d, buf), buf) == Ok(Some(Bytes(d, buf)))
  {
    var word := WordOfBytes(Bytes(d, buf));
    var window := DecodeArrayBits(word, d.minimum, d.maximum);
    var index := WindowIndex(d, buf);
    var token := GetArrayValue(tables.arrays, d.arrayName, index);
    WindowDecodes(env, readText, tables, d, buf);
    WindowStores(env, tables, d, buf, token);
    assert index == ToNat(window);
    assert Proper(tables.arrays[d.arrayName]);
    IndexOfArrayValue(tables.arrays, d.arrayName, index);
    FromIntOfToNat(window);
    assert StoredWord(tables, d, buf, token) == word by {
      ArrayBitsRestore(word, d.minimum, d.maximum);
    }
    BytesOfSigned(word);
    BytesOfWordOfBytes(Bytes(d, buf));
  }

  /** A window holding an index past the end of its table decodes to "", and storing "" back
      clears the window to index 0. */
  lemma WindowOutOfRange(env: Numerics, readText: int -> string, tables: Tables, d: Descriptor, buf: seq<byte>)
    requires ArraysSound(tables)
    requires InBuffer(d, buf) && IsBitWindow(d.kind)
    requires 1 <= d.minimum <= 31 && 0 <= d.maximum && d.minimum + d.maximum <= 32
    requires d.arrayName in tables.arrays && WindowIndex(d, buf) >= |tables.arrays[d.arrayName]|
    ensures DecodeField(env, readText, tables, d, buf) == Text("")
    ensures DecodeArrayBits(StoredWord(tables, d, buf, ""), d.minimum, d.maximum) == seq(32, i => false)
  {
    WindowDecodes(env, readText, tables, d, buf);
    WindowStores(env, tables, d, buf, "");
    assert Proper(tables.arrays[d.arrayName]);
    var index := LookUpArrayIndex(tables.arrays, d.arrayName, "");
    assert index == 0;
    var word := WordOfBytes(Bytes(d, buf));
    var zero := FromInt(index, |word|);
    ZeroBits(index, |word|);
    ClearedWindow(word, d.minimum, d.maximum, zero);
  }

  /** The value a non-blank CSV cell gives a column: the raw text for a text column, the parsed
      double, or 0 when the cell does not parse, for a numeric one. */
  function CellValue(env: Numerics, d: Descriptor, cell: string): (r: Value)
    requires Treatment(d.kind) != Ignored
    ensures r != Unset && Fits(d.kind, r)
    ensures Treatment(d.kind) == RawText ==> r == Text(cell)
    ensures Treatment(d.kind) == ParsedNumber ==>
      r == Number(if env.parseDouble(cell).Some? then env.parseDouble(cell).value else 0.0)
  {
    if Treatment(d.kind) == RawText then Text(cell)
    else Number(match env.parseDouble(cell) case Some(x) => x case None => 0.0)
  }

  /** The column cell i of a row sets in a table of columns (DeserializeFromCSV uses
      Fields): none when the cell is blank, lies past the header, or its header names no
      column, or names one DeserializeFromCSV's switch ignores. */
  function CellTarget(columns: seq<Descriptor>, line: seq<string>, header: seq<string>, i: nat): (r: Option<Setter>)
    requires i < |line|
    ensures IsBlank(line[i]) || i >= |header| ==> r.None?
    ensures r.Some? ==> r.value.column < |columns| && Treatment(r.value.field.kind) != Ignored
  {
    if IsBlank(line[i]) || i >= |header| then None else SettableIn(header[i], columns)
  }

  /** The setter a cell finds carries the descriptor of the column it names. */
  lemma CellTargetField(columns: seq<Descriptor>, line: seq<string>, header: seq<string>, i: nat)
    requires i < |line|
    ensures CellTarget(columns, line, header, i).Some? ==>
      columns[CellTarget(columns, line, header, i).value.column] == CellTarget(columns, line, header, i).value.field
  {
    if !IsBlank(line[i]) && i < |header| {
      SettableIsFoundAndHandled(header[i], columns);
    }
  }

  /** The values after a cell: the cell's target column, if any, takes the cell's value. */
  function ApplyCell(env: Numerics, columns: seq<Descriptor>, line: seq<string>, header: seq<string>, values: seq<Value>, i: nat): (r: seq<Value>)
    requires |values| == |columns| && i < |line|
    ensures |r| == |columns|
  {
    match CellTarget(columns, line, header, i)
    case None => values
    case Some(s) => values[s.column := CellValue(env, s.field, line[i])]
  }

  /** DeserializeFromCSV's loop over the first n cells of a row. */
  function CsvPrefix(env: Numerics, columns: seq<Descriptor>, line: seq<string>, header: seq<string>, values: seq<Value>, n: nat): (r: seq<Value>)
    requires |values| == |columns| && n <= |line|
    ensures |r| == |columns|
  {
    if n == 0 then values
    else ApplyCell(env, columns, line, header, CsvPrefix(env, columns, line, header, values, n - 1), n - 1)
  }

  /** One more cell of the loop. */
  lemma CsvStep(env: Numerics, columns: seq<Descriptor>, line: seq<string>, header: seq<string>, values: seq<Value>, n: nat)
    requires |values| == |columns| && n < |line|
    ensures var prev := CsvPrefix(env, columns, line, header, values, n);
            var target := CellTarget(columns, line, header, n);
            CsvPrefix(env, columns, line, header, values, n + 1)
              == if target.Some? then prev[target.value.column := CellValue(env, target.value.field, line[n])] else prev
  {
  }

  /** Whether a cell with this target sets column f. */
  predicate Sets(target: Option<Setter>, f: nat) {
    target.Some? && target.value.column == f
  }

  /** One more cell of the loop, seen from one column: it takes the cell's value when the cell
      targets it and is otherwise left alone. */
  lemma CsvColumnStep(env: Numerics, columns: seq<Descriptor>, line: seq<string>, header: seq<string>, values: seq<Value>, n: nat, f: nat)
    requires |values| == |columns| && n < |line| && f < |columns|
    ensures CsvPrefix(env, columns, line, header, values, n + 1)[f]
         == if Sets(CellTarget(columns, line, header, n), f) then CellValue(env, CellTarget(columns, line, header, n).value.field, line[n])
            else CsvPrefix(env, columns, line, header, values, n)[f]
  {
  }

  /** The column each cell of a row sets, cell by cell. */
  function CellTargets(columns: seq<Descriptor>, line: seq<string>, header: seq<string>): (r: seq<Option<Setter>>)
    ensures |r| == |line| && forall i :: 0 <= i < |line| ==> r[i] == CellTarget(columns, line, header, i)
  {
    seq(|line|, i requires 0 <= i < |line| => CellTarget(columns, line, header, i))
  }

  /** The last of the first n cells that targets column f. */
  function LastCell(targets: seq<Option<Setter>>, f: nat, n: nat): (r: Option<nat>)
    requires n <= |targets|
    ensures r.Some? ==> r.value < n && Sets(targets[r.value], f)
  {
    if n == 0 then None
    else if Sets(targets[n - 1], f) then Some(n - 1)
    else LastCell(targets, f, n - 1)
  }

  /** LastCell finds the last such cell: none after it targets f, and none at all when it
      finds nothing. */
  lemma {:induction false} LastCellIsLast(targets: seq<Option<Setter>>, f: nat, n: nat)
    requires n <= |targets|
    ensures LastCell(targets, f, n).Some? ==> forall i :: LastCell(targets, f, n).value < i < n ==> !Sets(targets[i], f)
    ensures LastCell(targets, f, n).None? ==> forall i :: 0 <= i < n ==> !Sets(targets[i], f)
  {
    if n > 0 && !Sets(targets[n - 1], f) {
      LastCellIsLast(targets, f, n - 1);
    }
  }

  /** After the first n cells of a row, every column holds the value of the last of them that
      targets it, and keeps its earlier value when none does. */
  lemma {:induction false} CsvLastCellWins(env: Numerics, columns: seq<Descriptor>, line: seq<string>, header: seq<string>, values: seq<Value>, n: nat, f: nat)
    requires |values| == |columns| && n <= |line| && f < |columns|
    ensures var targets := CellTargets(columns, line, header);
            var last := LastCell(targets, f, n);
            CsvPrefix(env, columns, line, header, values, n)[f]
              == if last.Some? then CellValue(env, targets[last.value].value.field, line[last.value]) else values[f]
  {
    if n > 0 {
      CsvLastCellWins(env, columns, line, header, values, n - 1, f);
      CsvColumnStep(env, columns, line, header, values, n - 1, f);
    }
  }

  /** A row keeps every property well typed. */
  lemma CsvWellTyped(env: Numerics, line: seq<string>, header: seq<string>, values: seq<Value>, n: nat)
    requires WellTyped(values) && n <= |line|
    ensures WellTyped(CsvPrefix(env, Fields, line, header, values, n))
  {
    var r := CsvPrefix(env, Fields, line, header, values, n);
    forall f | 0 <= f < |Fields|
      ensures Fits(Fields[f].kind, r[f])
    {
      CsvLastCellWins(env, Fields, line, header, values, n, f);
      var last := LastCell(CellTargets(Fields, line, header), f, n);
      if last.Some? {
        CellTargetField(Fields, line, header, last.value);
      } else {
        assert Fits(Fields[f].kind, values[f]);
      }
    }
  }

  /** SetFromTemplate's merge: a property the record leaves null takes the template's value;
      one the record sets keeps its own. */
  function TemplateFill(values: seq<Value>, template: seq<Value>): (r: seq<Value>)
    requires |values| == |template| == |Fields|
    ensures |r| == |Fields|
    ensures forall i :: 0 <= i < |Fields| && values[i] != Unset ==> r[i] == values[i]
    ensures forall i :: 0 <= i < |Fields| && r[i] != values[i] ==> values[i] == Unset && r[i] == template[i]
    ensures forall i :: 0 <= i < |Fields| && r[i] == Unset ==> values[i] == Unset && template[i] == Unset
  {
    seq(|Fields|, i requires 0 <= i < |Fields| => if values[i] == Unset && template[i] != Unset then template[i] else values[i])
  }

  /** Filling from the same template twice fills nothing more. */
  lemma TemplateFillIdempotent(values: seq<Value>, template: seq<Value>)
    requires |values| == |template| == |Fields|
    ensures TemplateFill(TemplateFill(values, template), template) == TemplateFill(values, template)
  {
    var once := TemplateFill(values, template);
    var twice := TemplateFill(once, template);
    forall i | 0 <= i < |Fields|
      ensures twice[i] == once[i]
    {
      if once[i] == Unset {
        assert template[i] == Unset;
      }
    }
  }

  /** A well-typed record filled from a well-typed template stays well typed. */
  lemma TemplateFillWellTyped(values: seq<Value>, template: seq<Value>)
    requires WellTyped(values) && WellTyped(template)
    ensures WellTyped(TemplateFill(values, template))
  {
    var r := TemplateFill(values, template);
    forall i | 0 <= i < |Fields|
      ensures Fits(Fields[i].kind, r[i])
    {
      assert Fits(Fields[i].kind, values[i]) && Fits(Fields[i].kind, template[i]);
    }
  }
}
