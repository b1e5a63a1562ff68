# Harmony sound-alias patcher — a Dafny model

Harmony edits the sound aliases of a running Black Ops III process. The patcher keeps three kinds of
sound bank:

- **Loaded banks**, scanned from the game's alias arrays: one live record per 216-byte alias
  structure, at `EntiresPointer + i * 216`.
- **The template bank**, read from the CSV files under the templates folder.
- **The source bank**, read from the allowed CSV files under the aliases folder. Each row is filled
  from the first record of the template it names.

The override pass handles every name of the source bank in turn. It finds the first loaded bank that
has the name. Each live record `i` of that bank's list is then:

1. read from the game;
2. given the properties of source row `min(i, s - 1)`;
3. stored back into the bytes it was read from, and written to the game.

The model covers:

- **The record codec** (`SoundAlias`), in the modules below.
  - `Schema`: the 71-column descriptor table, in declaration order.
  - `Bits`: the bit windows of a shared 32-bit word.
  - `Hashing`: the 32-bit name hash.
  - `Codec`: per-kind decoding and encoding, CSV cells and template defaults.
  - `Alias`: the class `SoundAlias`, with its in-place `Buffer` (an `array<byte>`) and its loops over
    the columns.
- **The bank** (`SoundBank`).
  - `Lookup`: the enumeration tables and the hash-recovery table.
  - `Bank`: the class `SoundBank`. Its `Aliases` dictionary is a map from name to list, plus the
    order of its keys. It has the live-scan constructor.
- **The patcher** (`Instance`), in module `Harmony`:
  - the allow-list;
  - the row loops of the two parse passes;
  - the override pass;
  - the static state, as the class `Instance`.

Each imperative operation is a method. Its contract ties the new state to a specification function:

- `EncodeFrom` for the serialisation pass;
- `CsvPrefix` for the CSV loop;
- `TemplateRows`, `AliasRows`, `TemplateFiles` and `AliasFiles` for the parse passes;
- `OverrideFrom` for the override pass.

Lemmas then state what the source promises about those functions:

- round trips;
- frames;
- first-match and tail-clamp rules;
- the invariant the parse passes keep.

The game process is an abstract byte map, `Foreign.Process`. Its `memory` is a function from address
to byte, and its `writes` list logs every `WriteBytes` call.

The Cents,
NormByte and Distance encoders are `(ushort)`/`(byte)` casts, which truncate toward zero; they do
not round. `Convert.ToByte`/`ToInt16`/`ToUInt16`/`ToUInt32` round half to even and throw
`OverflowException` out of range. A Distance column reads the stored value doubled, so encoding it
again gives the stored value back exactly.

## Model

| member | source | states |
|---|---|---|
| Schema.FieldsWellPlaced | src/Harmony/Harmony/SoundAlias.cs:132-553 | The column table has 71 entries. Name comes first and Template last; Template has no offset and is not editable. Every placed column lies inside the 216 bytes, and every bit window lies inside its 32-bit word. |
| Schema.FindField | src/Harmony/Harmony/SoundAlias.cs:579-592 | The Properties lookup by column name gives the first column of that name. It gives none exactly when no column has the name. |
| Schema.SettableIn | src/Harmony/Harmony/SoundAlias.cs:821-848 | A header sets only a column of that name whose kind DeserializeFromCSV's switch handles. |
| Schema.SettableIsFoundAndHandled | src/Harmony/Harmony/SoundAlias.cs:821-848 | The column a header sets is the property lookup followed by the kind switch. It is none when no column has the name or when the column's kind (Float, FlagBits) has no case. |
| Schema.HashColumnsReadOnly | src/Harmony/Harmony/SoundAlias.cs:318-378 | No Hash column is editable, so SerializeToBo3 never stores a Hash column and a hash the game holds is written back as it was read. |
| Bits.ShiftLeftValue | src/Harmony/Harmony/SoundAlias.cs:639 | `x << n` on an int is, as a number, the word's value times 2^n modulo 2^32. |
| Bits.ShiftRightValue | src/Harmony/Harmony/SoundAlias.cs:630 | `x >> n` on an int is the signed value divided by 2^n, rounded down (toward minus infinity for a negative int). |
| Bits.ArrayBitsRoundTrip | src/Harmony/Harmony/SoundAlias.cs:628-641 | Take a window of width 1..31 at a shift that fits in 32 bits. DecodeArrayBits of EncodeArrayBits(word, value) is the value masked to the window's width. |
| Bits.EncodeArrayBits | src/Harmony/Harmony/SoundAlias.cs:636-641 | EncodeArrayBits leaves every bit outside the window [max mod 32, max mod 32 + min mod 32) as it was, for any width and shift. |
| Bits.ArrayBitsStore | src/Harmony/Harmony/SoundAlias.cs:636-640 | EncodeArrayBits sets the window's bits to the low bits of the value. |
| Bits.ArrayBitsRestore | src/Harmony/Harmony/SoundAlias.cs:628-641 | Encoding back the window just decoded leaves the word unchanged. |
| Bits.ClearedWindow | src/Harmony/Harmony/SoundAlias.cs:628-641 | Storing 0 in a window and reading it back gives 0. |
| Bits.FullWidthIsEmpty | src/Harmony/Harmony/SoundAlias.cs:628-631 | A 32-bit window decodes to 0: C# takes the shift count of `1 << 32` modulo 32, so the mask is 0. |
| Bits.DecodeArrayBits | src/Harmony/Harmony/SoundAlias.cs:628-632 | A decoded window never has a bit at or above its width (min mod 32), so it is never negative. |
| Bits.BytesOfWordOfBytes | src/Harmony/Harmony/SoundAlias.cs:778 | Reading an int from four bytes and storing it back writes the same four bytes. |
| Bits.WordOfBytesOfWord | src/Harmony/Harmony/SoundAlias.cs:778 | Storing a word and reading it back gives the same word. |
| Bits.BytesOfSigned | src/Harmony/Harmony/SoundAlias.cs:778 | The int SetBytes stores for a word has exactly the word's four bytes. |
| Bits.FromIntOfToNat | src/Harmony/Harmony/SoundAlias.cs:708 | A decoded window, read as an index and turned back into bits, is the same window. |
| Bits.ToNatOfFromInt | src/Harmony/Harmony/SoundAlias.cs:778 | The k low bits of n denote n modulo 2^k. |
| Common.UnsignedOfLittleEndian | src/Harmony/Harmony/SoundAlias.cs:856-865 | Reading back the n bytes SetBytes stores for x gives x modulo 256^n. |
| Common.LittleEndianOfUnsigned | src/Harmony/Harmony/SoundAlias.cs:856-865 | Storing the unsigned value just read from some bytes writes the same bytes. |
| Common.LittleEndianMod | src/Harmony/Harmony/SoundAlias.cs:856-865 | Values congruent modulo 256^n store the same n bytes, so a signed and an unsigned reading of the bytes store alike. |
| Common.Splice | src/Harmony/Harmony/SoundAlias.cs:862-865 | An unaligned store replaces the bytes at [offset, offset + n) and no other byte. |
| Bits.UInt32OfWord | src/Harmony/Harmony/SoundAlias.cs:686 | BitConverter.ToUInt32 of four bytes is the unsigned value of the 32-bit word they store. |
| Common.Signed | src/Harmony/Harmony/SoundAlias.cs:717 | BitConverter.ToInt16/ToInt32/ToInt64 lie in the signed range of their width. |
| Foreign.WindowOfStored | src/Harmony/Harmony/SoundAlias.cs:803 | Reading back the bytes WriteBytes just stored gives them back. |
| Foreign.WindowApart | src/Harmony/Harmony/SoundAlias.cs:803 | WriteBytes leaves every range of memory that does not overlap the write as it was. |
| Foreign.Process.ReadBytes | src/Harmony/Harmony/SoundAlias.cs:667 | ReadBytes returns a new array holding the bytes of memory at the address. |
| Foreign.Process.WriteBytes | src/Harmony/Harmony/SoundAlias.cs:803 | WriteBytes stores the bytes at the address and logs exactly one write. |
| Text.ToLower | src/Harmony/Harmony/Instance.cs:381 | ToLower keeps the length and lower-cases each character. |
| Text.ToLowerIdempotent | src/Harmony/Harmony/Program.cs:25 | Lower-casing twice is lower-casing once, so a name added lower-cased is already in the form a lookup compares against. |
| Text.RemoveAll | src/Harmony/Harmony/SoundAlias.cs:873 | `Replace("HASH_", "")` never lengthens the text. |
| Text.RemoveAllAbsent | src/Harmony/Harmony/SoundAlias.cs:873 | Text without the pattern's first character is left as it is. |
| Text.Decimal | src/Harmony/Harmony/SoundBank.cs:696 | A number formatted as `{0}` is a non-empty run of digits without a leading zero. |
| Text.DecimalValue | src/Harmony/Harmony/SoundBank.cs:696 | Reading back the decimal form gives the number. |
| Text.ParseDecimal | src/Harmony/Harmony/SoundBank.cs:696 | uint.TryParse accepts the decimal form of every 32-bit value and gives the value back. |
| Hashing.AsInt32 | src/Harmony/Harmony/SoundAlias.cs:879 | `(int)result` is the signed value with the same 32 bits. |
| Hashing.WrapInt32 | src/Harmony/Harmony/SoundAlias.cs:879 | Unchecked int arithmetic yields the signed 32-bit value congruent to the exact result. |
| Hashing.WrapUInt32 | src/Harmony/Harmony/SoundAlias.cs:879 | `(uint)` and unchecked uint arithmetic yield the exact result modulo 2^32. |
| Hashing.ShiftLeftInt32 | src/Harmony/Harmony/SoundAlias.cs:879 | `x << n` on an int is x times 2^n, up to a multiple of 2^32. |
| Hashing.StepClosedForm | src/Harmony/Harmony/SoundAlias.cs:879 | The step, with its casts and shifts, equals (c + 65599 h) mod 2^32. |
| Hashing.HashString | src/Harmony/Harmony/SoundAlias.cs:870-882 | Text starting "HASH_" whose remainder parses as a uint hashes to that number. Any other text hashes to the fold of (c + 65599 h) mod 2^32 from 5381 over its characters. |
| Hashing.HashValue | src/Harmony/Harmony/SoundAlias.cs:870-882 | The hash is computed one character at a time: for text that does not start with "HASH_", the last character c turns the hash h of the rest into (c + 65599 h) mod 2^32. |
| Hashing.RemovePrefixOfDigits | src/Harmony/Harmony/SoundAlias.cs:872-873 | Removing "HASH_" from "HASH_" plus digits leaves the digits. |
| Hashing.HashOfHashName | src/Harmony/Harmony/SoundAlias.cs:872-874 | HashString("HASH_" + decimal(h)) == h for every 32-bit h. |
| Recovery.HashOfOn | src/Harmony/Harmony/SoundBank.cs:307 | "on" hashes to 0x5A2AFE44, the key the recovery table gives it. |
| Recovery.HashOfSlomo | src/Harmony/Harmony/SoundBank.cs:297 | "slomo" hashes to 0x6DFCA373, its key. |
| Recovery.HashOfBoot | src/Harmony/Harmony/SoundBank.cs:298 | "boot" hashes to 0xBE1CADD7, its key. |
| Recovery.HashOfWet | src/Harmony/Harmony/SoundBank.cs:299 | "wet" hashes to 0x32C00D01, its key. |
| Recovery.HashOfFoley | src/Harmony/Harmony/SoundBank.cs:300 | "foley" hashes to 0x850E1232, its key. |
| Recovery.HashOfIgc | src/Harmony/Harmony/SoundBank.cs:302 | "igc" hashes to 0x2BDD3460, its key. |
| Recovery.HashOfHeroLocation | src/Harmony/Harmony/SoundBank.cs:421 | "cp_aquifer_pip_HeroLocation", as listed, hashes to 0xF3E42294. |
| Recovery.HashOfHeroLocationLower | src/Harmony/Harmony/SoundBank.cs:421 | "cp_aquifer_pip_herolocation", the lower-case spelling, hashes to 0xF98CB254, the key the entry is listed under. |
| Recovery.HeroLocationMismatch | src/Harmony/Harmony/SoundBank.cs:421 | The name listed under 0xF98CB254 hashes to 0xF3E42294, so the table does not recover 0xF98CB254. |
| Recovery.HashedStringsConsistent | src/Harmony/Harmony/SoundBank.cs:291-621 | Every listed name except the one under 0xF98CB254 hashes to its own key. |
| Recovery.BuiltInSound | src/Harmony/Harmony/SoundBank.cs:82-621 | The built-in tables: every enumeration array is non-empty with neither repeated nor empty tokens, and the recovery table recovers every 32-bit hash except 0xF98CB254. |
| Lookup.FindIndex | src/Harmony/Harmony/SoundBank.cs:683 | FindIndex gives the first position holding the value, or -1 exactly when no position does. |
| Lookup.LookUpArrayIndex | src/Harmony/Harmony/SoundBank.cs:678-686 | LookUpArrayIndex gives the first position of the token (ordinal comparison). It gives 0 when the table or token is missing, and it is never negative. |
| Lookup.IndexOfArrayValue | src/Harmony/Harmony/SoundBank.cs:666-686 | In a table without repeated tokens, LookUpArrayIndex(GetArrayValue(i)) == i for every in-range i. |
| Lookup.OutOfRangeIndex | src/Harmony/Harmony/SoundBank.cs:666-686 | An out-of-range index decodes to "" and encodes back as 0, in a table without an empty token. |
| Lookup.SmallTablesProper | src/Harmony/Harmony/SoundBank.cs:84-150 | The short built-in tables are non-empty and have neither repeated nor empty tokens. |
| Lookup.PanProper | src/Harmony/Harmony/SoundBank.cs:151-190 | The Pan table is non-empty and has neither repeated nor empty tokens. |
| Lookup.DuckGroupProper | src/Harmony/Harmony/SoundBank.cs:191-232 | The DuckGroup table is non-empty and has neither repeated nor empty tokens. |
| Lookup.VolumeGroupProper | src/Harmony/Harmony/SoundBank.cs:233-265 | The VolumeGroup table is non-empty and has neither repeated nor empty tokens. |
| Lookup.ArraysProper | src/Harmony/Harmony/SoundBank.cs:82-289 | Every built-in enumeration table is non-empty and has neither repeated nor empty tokens, so the index lookup inverts the token lookup on all of them. |
| Lookup.HashOfUnlisted | src/Harmony/Harmony/SoundBank.cs:691-697 | HashString(LookUpHash(h)) == h for every h the table does not list. |
| Lookup.LookUpHashInverse | src/Harmony/Harmony/SoundBank.cs:691-697 | HashString(LookUpHash(h)) == h exactly when the table recovers h: h is unlisted, or its listed name hashes to h. |
| Codec.RoundHalfEven | src/Harmony/Harmony/SoundAlias.cs:780-791 | Convert.To* rounds to the nearest integer, and a tie goes to the even one. |
| Codec.ConvertTo | src/Harmony/Harmony/SoundAlias.cs:780-791 | Convert.ToByte/ToInt16/ToUInt16/ToUInt32 succeed exactly when the rounded value is in range and give that value. Otherwise they raise Overflow rather than clamping. |
| Codec.RoundWhole | src/Harmony/Harmony/SoundAlias.cs:780-791 | A whole number converts to itself. |
| Codec.Truncate | src/Harmony/Harmony/SoundAlias.cs:792-797 | An explicit cast of a double truncates toward zero. |
| Codec.CastUShort | src/Harmony/Harmony/SoundAlias.cs:795-797 | `(ushort)` is the truncated value wrapped to 16 bits. It is the truncated value itself when that fits. |
| Codec.CastByte | src/Harmony/Harmony/SoundAlias.cs:792-794 | `(byte)` is the truncated value wrapped to 8 bits. It is the truncated value itself when that fits. |
| Codec.ConvertFromFloatDBSPL | src/Harmony/Harmony/SoundAlias.cs:597-600 | A non-positive gain converts to 0 dB. |
| Codec.ConvertToFloatDBSPL | src/Harmony/Harmony/SoundAlias.cs:605-608 | Non-positive decibels convert to a gain of 0. |
| Codec.ConvertToCents | src/Harmony/Harmony/SoundAlias.cs:621-624 | The stored cents value always fits in 16 bits. |
| Codec.DecodeField | src/Harmony/Harmony/SoundAlias.cs:677-728 | Every placed column decodes to a non-null value: text for the text and enumeration kinds, a number otherwise. |
| Codec.StoredInt | src/Harmony/Harmony/SoundAlias.cs:752-799 | Encoding a column raises only Overflow, or InvalidCast for a value of the wrong shape. |
| Codec.FieldBytes | src/Harmony/Harmony/SoundAlias.cs:752-799 | A text column stores nothing; every other column stores exactly its width in bytes. |
| Codec.EncodeColumn | src/Harmony/Harmony/SoundAlias.cs:745-799 | One column's store changes only that column's bytes, and only when it is editable, placed and non-null. A raise leaves the buffer as it was. |
| Codec.EncodeFrom | src/Harmony/Harmony/SoundAlias.cs:737-804 | SerializeToBo3's pass over the columns from column i on, stopping at the first raise, always leaves a 216-byte buffer. Codec.EncodeFrame, Codec.EncodeFromRaises and Codec.EncodeNothing state which bytes it changes and how it fails. |
| Codec.EncodeFrame | src/Harmony/Harmony/SoundAlias.cs:741-801 | SerializeToBo3 changes only bytes of editable, placed, non-null, non-text columns. Every other byte keeps what was read, whether or not the pass completes. |
| Codec.EncodeFromRaises | src/Harmony/Harmony/SoundAlias.cs:741-801 | A serialisation pass raises only Overflow or InvalidCast. |
| Codec.EncodeNothing | src/Harmony/Harmony/SoundAlias.cs:745-750 | A record whose properties are all null, or all on non-editable or unplaced columns, leaves the buffer as it is. |
| Codec.ByteRestores | src/Harmony/Harmony/SoundAlias.cs:780-782 | Re-encoding a freshly decoded Byte column stores the byte it was read from. |
| Codec.UShortRestores | src/Harmony/Harmony/SoundAlias.cs:789-791 | Re-encoding a freshly decoded UShort column stores the bytes it was read from. |
| Codec.IntRestores | src/Harmony/Harmony/SoundAlias.cs:757-759 | Re-encoding a freshly decoded Int column stores the bytes it was read from. |
| Codec.ShortRestores | src/Harmony/Harmony/SoundAlias.cs:786-788 | Re-encoding a freshly decoded Short column stores the bytes it was read from. |
| Codec.SignedBytes | src/Harmony/Harmony/SoundAlias.cs:786-788 | Storing the signed value of some bytes stores those bytes. |
| Codec.DistanceRestores | src/Harmony/Harmony/SoundAlias.cs:795-797 | A Distance is read doubled and stored halved, so re-encoding a freshly decoded one stores the bytes it was read from. |
| Codec.HashRestores | src/Harmony/Harmony/SoundAlias.cs:773-775 | Re-encoding a freshly decoded Hash column stores the bytes it was read from exactly when the bank's table recovers the stored hash. SerializeToBo3 never reaches this case, because no Hash column is editable (Schema.HashColumnsReadOnly). |
| Codec.EnumByteCase | src/Harmony/Harmony/SoundAlias.cs:713-715 | An EnumByte column decodes to the token at its byte, and a token encodes to its index truncated to a byte. |
| Codec.EnumByteRestores | src/Harmony/Harmony/SoundAlias.cs:783-785 | With proper enumeration arrays (the built-in ones are), re-encoding a freshly decoded EnumByte column whose byte indexes a token stores that byte. |
| Codec.WindowDecodes | src/Harmony/Harmony/SoundAlias.cs:706-709 | A bit-packed column decodes to the token at the index DecodeArrayBits reads from its word. |
| Codec.WindowStores | src/Harmony/Harmony/SoundAlias.cs:776-779 | A bit-packed column stores EncodeArrayBits of the token's index into the word currently in the buffer. |
| Codec.WindowRestores | src/Harmony/Harmony/SoundAlias.cs:776-779 | With proper enumeration arrays (the built-in ones are), re-encoding a freshly decoded bit-packed column whose index names a token stores the word it was read from. The window gets its index back and sibling windows keep their bits. |
| Codec.WindowOutOfRange | src/Harmony/Harmony/SoundAlias.cs:706-709 | With proper enumeration arrays, a window holding an index past its table decodes to "", and storing "" back clears the window to index 0. |
| Codec.CellTarget | src/Harmony/Harmony/SoundAlias.cs:813-821 | A blank cell, a cell past the header and a cell whose header names no handled column set nothing. Any other cell sets a column whose kind the switch handles. |
| Codec.CellTargetField | src/Harmony/Harmony/SoundAlias.cs:821-825 | The descriptor a cell acts on is the descriptor of the column it sets. |
| Codec.CsvStep | src/Harmony/Harmony/SoundAlias.cs:813-852 | One more cell changes at most the column it targets, and that column takes the cell's value. |
| Codec.CsvColumnStep | src/Harmony/Harmony/SoundAlias.cs:813-852 | Seen from one column: the column takes the cell's value when the cell targets it, and keeps its value otherwise. |
| Codec.LastCell | src/Harmony/Harmony/SoundAlias.cs:813-852 | The cell LastCell finds is among the first n and targets the column. |
| Codec.LastCellIsLast | src/Harmony/Harmony/SoundAlias.cs:813-852 | No later cell among the first n targets the column. When LastCell finds nothing, no cell does. |
| Codec.CsvLastCellWins | src/Harmony/Harmony/SoundAlias.cs:811-853 | After a row, each column holds the value of the last cell that targets it. It keeps its earlier value when no cell does. |
| Codec.CsvWellTyped | src/Harmony/Harmony/SoundAlias.cs:827-848 | A CSV row leaves every property null, text or a number, as its kind requires. |
| Codec.TemplateFill | src/Harmony/Harmony/SoundAlias.cs:901-914 | A set property keeps its value. A changed property was null and takes the template's value. A property stays null only when the template's is null too. |
| Codec.TemplateFillIdempotent | src/Harmony/Harmony/SoundAlias.cs:901-914 | Filling from the same template twice fills nothing more. |
| Codec.TemplateFillWellTyped | src/Harmony/Harmony/SoundAlias.cs:901-914 | A well-typed record filled from a well-typed template stays well typed. |
| Alias.BlankWellTyped | src/Harmony/Harmony/SoundAlias.cs:558-574 | A new record is well typed. |
| Alias.Decoded | src/Harmony/Harmony/SoundAlias.cs:669-731 | After a read, every placed column is non-null, Template keeps its value, and well-typed properties stay well typed. |
| Alias.Firsts | src/Harmony/Harmony/SoundAlias.cs:894-899 | The templates are the names whose list is non-empty, each with its first record. |
| Alias.ApplyTemplate | src/Harmony/Harmony/SoundAlias.cs:887-916 | A set property keeps its value. Nothing changes when Template is null or names no template. |
| Alias.ApplyTemplateIdempotent | src/Harmony/Harmony/SoundAlias.cs:887-916 | Applying the templates a second time changes nothing. |
| Alias.ApplyTemplateWellTyped | src/Harmony/Harmony/SoundAlias.cs:887-916 | Well-typed templates keep a well-typed record well typed. |
| Alias.RowRecord | src/Harmony/Harmony/SoundAlias.cs:567-574 | A CSV row becomes a record with one property per column. |
| Alias.RowRecordWellTyped | src/Harmony/Harmony/SoundAlias.cs:567-574 | With well-typed templates, every CSV row becomes a well-typed record. |
| Alias.SoundAlias.Bound | src/Harmony/Harmony/SoundAlias.cs:558-562 | A live record has its address, its bank's tables and no property set. |
| Alias.SoundAlias.FromCsv | src/Harmony/Harmony/SoundAlias.cs:567-574 | A CSV record has address -1. Its properties are the row's cells, then filled from the first record under its Template, as that template stood before the row. |
| Alias.SoundAlias.DeserializeFromBo3 | src/Harmony/Harmony/SoundAlias.cs:665-732 | Buffer becomes a new array holding the 216 bytes at the record's address. Every placed column is decoded from it; Template keeps its value. |
| Alias.SoundAlias.SerializeToBo3 | src/Harmony/Harmony/SoundAlias.cs:737-804 | Buffer is changed in place, column by column in declaration order. On success the whole buffer is written to the address in exactly one write. On a raise nothing is written and the bytes stored so far stay in Buffer. |
| Alias.SoundAlias.CopyFrom | src/Harmony/Harmony/SoundAlias.cs:646-660 | Every property takes the other record's value, including null and non-editable ones. Buffer is untouched. |
| Alias.SoundAlias.DeserializeFromCSV | src/Harmony/Harmony/SoundAlias.cs:811-853 | The properties become CsvPrefix of the old ones over the whole row. CsvLastCellWins then gives each column the value of its last targeting cell. |
| Alias.SoundAlias.SetFromTemplate | src/Harmony/Harmony/SoundAlias.cs:887-916 | The properties become ApplyTemplate of the old ones and the first records of the template bank. Buffer is untouched. |
| Alias.StoreColumn | src/Harmony/Harmony/SoundAlias.cs:752-799 | One case of the write-back switch stores the column's bytes in place, or raises with the buffer unchanged. |
| Alias.SetBytes | src/Harmony/Harmony/SoundAlias.cs:856-865 | The bytes are stored at the offset, and no other byte of the buffer changes. |
| Bank.Names | src/Harmony/Harmony/SoundBank.cs:638-644 | The names of a scanned bank are distinct: exactly the names of the alias array, in order of first appearance. |
| Bank.AddressesAppend | src/Harmony/Harmony/SoundBank.cs:638-644 | A name that appears in two parts of the array collects the records of both, those of the first part first. |
| Bank.AddressesOfOne | src/Harmony/Harmony/SoundBank.cs:638-644 | A name with a single element lists exactly that element's records. |
| Bank.AddressesAbsent | src/Harmony/Harmony/SoundBank.cs:638-644 | A name the array does not hold lists nothing. |
| Bank.ScannedStep | src/Harmony/Harmony/SoundBank.cs:638-644 | One more element grows its name's list by the element's records and changes no other list. |
| Bank.Added | src/Harmony/Harmony/Instance.cs:245-246 | Adding a record puts it last in its name's list. A new name goes last in the order, and no other list changes. |
| Bank.FirstRecordsAdded | src/Harmony/Harmony/Instance.cs:245-246 | Adding a record never changes the first record of an existing list. A new list starts with the added record. |
| Bank.SoundBank.Empty | src/Harmony/Harmony/SoundBank.cs:626-629 | A new bank has its name and no aliases. |
| Bank.SoundBank.GetOrAddAlias | src/Harmony/Harmony/SoundBank.cs:652-661 | A present name gives its list unchanged. An absent name gets a new empty list, added last. No other name changes. |
| Bank.SoundBank.Append | src/Harmony/Harmony/SoundBank.cs:643 | List.Add puts the record last in the name's list. |
| Bank.SoundBank.Add | src/Harmony/Harmony/Instance.cs:246 | GetOrAddAlias(name).Add(alias) puts the record last in the name's list, which is created last when absent. |
| Bank.SoundBank.AddRecord | src/Harmony/Harmony/Instance.cs:246 | A bank holding some contents holds them with the record's properties added under the name. |
| Bank.SoundBank.AddEntry | src/Harmony/Harmony/SoundBank.cs:640-643 | One element of the alias array appends its records, at the addresses EntryAddresses gives, to its name's list. No other list changes. |
| Bank.SoundBank.Live | src/Harmony/Harmony/SoundBank.cs:634-645 | A scanned bank lists, under every name, exactly the records the array gives it, in array order. The names come in order of first appearance, and every record uses the bank's tables. |
| Harmony.AliasFileMatchIgnoresCase | src/Harmony/Harmony/Instance.cs:376-382 | With a non-empty lower-cased list, a file is read exactly when its name matches a listed name up to letter case. |
| Harmony.UpperCaseEntryNeverMatches | src/Harmony/Harmony/Instance.cs:381 | A listed name with an upper-case letter never matches, because the file's name is lower-cased before the lookup. |
| Harmony.IsAliasFileValid | src/Harmony/Harmony/Instance.cs:376-382 | With no name given every file is read. A file read under a non-empty list matches a listed name up to letter case. |
| Harmony.KeptName | src/Harmony/Harmony/Instance.cs:245 | A record is filed exactly when its Name is neither null nor white space, and then under that Name. |
| Harmony.AddRowFiled | src/Harmony/Harmony/Instance.cs:240-246 | Filing a row preserves the parse invariant. Every name is listed once, in order, with a non-empty list. Every record is full and filed under its own non-blank Name. |
| Harmony.TemplateRowsFiled | src/Harmony/Harmony/Instance.cs:234-248 | The template file loop keeps the bank filed. |
| Harmony.AliasRowsFiled | src/Harmony/Harmony/Instance.cs:269-283 | The alias file loop keeps the bank filed. |
| Harmony.TemplateFilesFiled | src/Harmony/Harmony/Instance.cs:223-252 | The template pass builds a filed bank. |
| Harmony.AliasFilesFiled | src/Harmony/Harmony/Instance.cs:255-291 | The alias pass builds a filed bank. |
| Harmony.TemplateRowsPrefix | src/Harmony/Harmony/Instance.cs:232-250 | A template file that fails after m rows leaves exactly what its first m rows filed, and the records filed so far stay. |
| Harmony.AliasRowsPrefix | src/Harmony/Harmony/Instance.cs:267-288 | An alias file that fails after m rows leaves exactly what its first m rows filed, and the records filed so far stay. |
| Harmony.HeaderOnly | src/Harmony/Harmony/Instance.cs:236-239 | The first row is the header: a file with only a header files nothing. |
| Harmony.TemplateRowsKeepFirsts | src/Harmony/Harmony/Instance.cs:225-248 | During the template pass, the template a name stands for is the first record filed under it. Later rows never change it. |
| Harmony.FirstMatchIsFirst | src/Harmony/Harmony/Instance.cs:302-324 | A name is looked up in bank order, and the first bank that has it wins. No bank matches exactly when none has the name. |
| Harmony.Jobs | src/Harmony/Harmony/Instance.cs:314-319 | Each live record of a name is paired, in order, with one source row. |
| Harmony.JobsClamp | src/Harmony/Harmony/Instance.cs:314-319 | Live record i takes source row i while there is one, and the last source row after that. |
| Harmony.RunFromWrites | src/Harmony/Harmony/Instance.cs:314-319 | Each overridden record adds one write, at its own address, in list order, up to the one that raises. Earlier writes are kept. |
| Harmony.RunJobFrame | src/Harmony/Harmony/Instance.cs:316-318 | A record written back differs from the bytes read at its address only in bytes of editable, placed, non-null, non-text columns. |
| Harmony.OverrideNameKeepsWrites | src/Harmony/Harmony/Instance.cs:302-324 | Overriding one source name only adds writes: the writes made before it are kept, whether or not it raises. |
| Harmony.OverrideFrom | src/Harmony/Harmony/Instance.cs:296-329 | The override pass from the k-th source name on, in the source bank's order, until an exception stops it, only ever adds writes. An exception for one name keeps the writes made for earlier names. |
| Harmony.NameNotFound | src/Harmony/Harmony/Instance.cs:326-327 | A name no loaded bank has is passed over: nothing is written for it. |
| Harmony.RunFromRaises | src/Harmony/Harmony/Instance.cs:314-319 | Overriding one name's list raises only the conversion errors. |
| Harmony.FiledNeverOutOfRange | src/Harmony/Harmony/Instance.cs:317 | A source bank built by the parse passes never makes the override raise IndexOutOfRange, because each of its lists holds a record. |
| Harmony.OverrideRecord | src/Harmony/Harmony/Instance.cs:316-318 | DeserializeFromBo3, CopyFrom and SerializeToBo3 on one live record: the game ends as RunJob says. |
| Harmony.OverrideEach | src/Harmony/Harmony/Instance.cs:314-319 | The row loop overrides the live records in order, record i from source row SourceIndex(i, s), and stops at the first raise. |
| Harmony.OverrideRecords | src/Harmony/Harmony/Instance.cs:314-319 | For one live list, nothing happens when it is empty. It raises IndexOutOfRange when the source list is empty. Otherwise every record is overridden as Jobs pairs them. |
| Harmony.OverrideFirstMatch | src/Harmony/Harmony/Instance.cs:302-324 | The banks are searched in order; only the live list of the first bank that has the name is overridden. |
| Harmony.FileRow | src/Harmony/Harmony/Instance.cs:242-246 | A row becomes a record filled from the given templates and is filed under its name when it has one. The templates are left as they were. |
| Harmony.FileTemplateRow | src/Harmony/Harmony/Instance.cs:240-247 | A template row resolves against the first records the bank holds so far. The rest of the file then yields the same contents. |
| Harmony.FileAliasRow | src/Harmony/Harmony/Instance.cs:275-282 | An alias row resolves against the template bank, which it leaves as it was. |
| Harmony.ParseTemplateFile | src/Harmony/Harmony/Instance.cs:230-250 | The template bank ends holding TemplateRows of the file: the header, then every later row filed in order. |
| Harmony.ParseAliasFile | src/Harmony/Harmony/Instance.cs:261-289 | A file the allow-list rejects changes nothing. Otherwise the source bank ends holding AliasRows of the file, and the templates are unchanged. |
| Harmony.Instance.constructor | src/Harmony/Harmony/Instance.cs:51-66 | A new patcher has no alias file named and no bank loaded; its tables are the built-in ones, and its template and source banks are empty (they are null in the source until the first pass). |
| Harmony.Instance.AddAliasFileName | src/Harmony/Harmony/Program.cs:24-25 | Each argument's name joins the list lower-cased, last. |
| Harmony.Instance.AddLoadedBank | src/Harmony/Harmony/Instance.cs:194-201 | A header with no alias pointer and no aliases is skipped. Any other appends a new bank scanned from the game's alias array. |
| Harmony.Instance.ParseTemplates | src/Harmony/Harmony/Instance.cs:223-252 | The template bank is replaced by a new bank holding TemplateFiles of the files, in order. |
| Harmony.Instance.ParseAliases | src/Harmony/Harmony/Instance.cs:255-291 | The source bank is replaced by a new bank holding AliasFiles of the allowed files, each row filled from the template bank's first records. |
| Harmony.Instance.OverrideAliases | src/Harmony/Harmony/Instance.cs:296-329 | For every source name in order, the first loaded bank with the name has its live list overridden, and a name no bank has is passed over. The game ends as OverrideFrom says, and an exception stops the pass without undoing earlier writes. |

## Left out

- Floating point: `Math.Log`, `Math.Pow`, the float/double conversions and `double.TryParse` are opaque collaborator functions (the fields of `Codec.Numerics`), so no float rounding error is modelled.
- Codec.ConvertFromFloatDBSPL: states only the non-positive case, because the logarithm is an opaque collaborator function.
- Codec.ConvertToFloatDBSPL: states only the non-positive case, for the same reason.
- Codec.ConvertToCents: states only the 16-bit range of the result, for the same reason.
- Codec.ConvertFromCents: has no contract. Its only content is a call to the logarithm, and a zero input, which the source leaves unguarded, is whatever that function gives.
- Culture: `double.TryParse` and `uint.TryParse` are taken with the invariant culture, and `StartsWith("HASH_")`, which compares under the current culture, is taken as a plain character-by-character comparison. `uint.TryParse` is modelled on plain decimal digits only (no sign, white space or group separators).
- Hashing.HashValue: a character outside the Basic Multilingual Plane is one Mix step with its scalar value, where the source's loop makes two steps, one per UTF-16 surrogate; a name holding such a character gets a different hash (also Hashing.HashString).
- Text: strings are sequences of Unicode scalar values, not of UTF-16 code units. `ToLower` folds only A–Z, and white space is the set `char.IsWhiteSpace` recognises in the BMP.
- `ReadNullTerminatedString` is the `readText` function of `Foreign.Process`. Text columns are decode-only pointers, as in the source.
- Process discovery, signature scanning, the asset-pool arithmetic and the mod-name check in `Initialize` are not modelled. The model starts from the alias arrays those steps locate (`Bank.Entry`, `Harmony.Instance.AddLoadedBank`).
- `FileSystemWatcher` setup, its event handlers, console output and `PrintException` are not modelled. These include the "Overriding"/"Failed to find" messages and the count-mismatch warning, which never changes what is written.
- Directory enumeration and `CSV.LoadFile` (TextFieldParser, comments, quoting) are not modelled. A file is its stem and the rows it yields; a read that fails mid-file is the rows before the failure.
- Harmony.Instance.ParseTemplates: the silent `catch { }` and the alias pass's printed exception both end a file early. Each is the truncated row list, and `TemplateRowsPrefix`/`AliasRowsPrefix` state that the rows before the failure stay filed.
- Harmony.Instance.AddAliasFileName: takes the file name already stripped of directory and extension (`Path.GetFileNameWithoutExtension` is not modelled).
- Dictionary enumeration order is taken to be insertion order. No key is ever removed from an alias dictionary, which is the case in which .NET's Dictionary enumerates in insertion order.
- `List<SoundAlias>` reference semantics are not modelled. `GetOrAddAlias(name).Add(x)` is `SoundBank.Add`, and the lists are `seq` values in the bank's map.
- `Instance` is a static class in the source; here it is one object whose fields are the static properties.
- Lookup.HashedStrings: only seven of the 328 entries of the recovery table are modelled, among them the entry listed under 0xF98CB254, whose name hashes elsewhere. Every other hash decodes through the "HASH_" path, which round-trips for every value.
- Codec.CastUShort: an explicit `(ushort)`/`(byte)` cast of a double outside the target range has no result fixed by C#. The .NET Framework wraps and newer runtimes saturate; the model wraps (also Codec.CastByte).
- Bank.SoundBank.Live: does not state that the scanned records are new objects with no property set. OverrideAliases requires instead that no source record is a live record (`Disjoint`).
- Harmony.Instance.constructor: the source's template and source banks are null until the first pass; the model starts both as empty banks.
- Harmony.Instance.OverrideAliases: requires that no source record is also a live record (`Disjoint`). The two kinds are built separately, so aliasing between them cannot happen in the source.
- Harmony.Instance.OverrideAliases: states the game's memory and writes, not the properties left in the live record objects after the pass.
- Alias.SoundAlias.SerializeToBo3: requires that Buffer was read first (216 bytes). In the source, a write-back before any read dereferences a null buffer.
- Exceptions are values: `Overflow`, `InvalidCast` and `IndexOutOfRange` are returned as `Option<Error>`.
