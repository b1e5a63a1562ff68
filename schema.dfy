/** The native sound-alias structure: 216 bytes whose columns are described, in declaration
    order, by one descriptor each (name, offset, kind, width/shift or range, editability and
    enumeration table). */
module Schema {
  import opened Common

  /** How a column is stored in the structure (NativeSoundValueType). */
  datatype Kind =
    | String | Float | Int | Enum | Flag | UShortDBSPL | FloatDBSPL | Cents | Hash
    | EnumBits | FlagBits | Byte | EnumByte | Short | UShort | NormByte | Distance

  /** One NativeSoundValue attribute. For the bit-packed kinds `minimum` is the window width and
      `maximum` its shift; `arrayName` is "" where the attribute names no table. */
  datatype Descriptor = Descriptor(
    name: string, offset: int, kind: Kind, minimum: int, maximum: int, editable: bool, arrayName: string)

  const SizeOfStructure: int := 216

  /** The number of bytes a column of this kind occupies: what DeserializeFromBo3 reads and
      what SerializeToBo3 stores (a string column holds an 8-byte pointer). */
  function Width(k: Kind): nat {
    match k
    case String => 8
    case Float | Int | Enum | Flag | FloatDBSPL | Hash | EnumBits | FlagBits => 4
    case UShortDBSPL | Cents | Short | UShort | Distance => 2
    case Byte | EnumByte | NormByte => 1
  }

  predicate IsBitWindow(k: Kind) {
    k == EnumBits || k == FlagBits
  }

  /** The four text pointers, then the windows of the flag word at offset 104. */
  const FlagWord: seq<Descriptor> := [
      Descriptor("Name", 0, String, 0, 0, false, ""),
      Descriptor("Subtitle", 16, String, 0, 0, false, ""),
      Descriptor("Secondary", 24, String, 0, 0, false, ""),
      Descriptor("StopAlias", 40, String, 0, 0, false, ""),
      Descriptor("Looping", 104, EnumBits, 1, 0, true, "Looping"),
      Descriptor("PanType", 104, EnumBits, 1, 1, true, "PanType"),
      Descriptor("SilentInCPZ", 104, EnumBits, 1, 2, true, "Bool"),
      Descriptor("ContextFailsafe", 104, EnumBits, 1, 3, true, "Bool"),
      Descriptor("DistanceLpf", 104, EnumBits, 1, 4, true, "Bool"),
      Descriptor("Doppler", 104, EnumBits, 1, 5, true, "Bool"),
      Descriptor("Pauseable", 104, EnumBits, 1, 6, true, "Bool"),
      Descriptor("IsMusic", 104, EnumBits, 1, 7, true, "Bool"),
      Descriptor("StopOnEntDeath", 104, EnumBits, 1, 8, true, "Bool"),
      Descriptor("Timescale", 104, EnumBits, 1, 9, true, "Bool"),
      Descriptor("VoiceLimit", 104, EnumBits, 1, 10, true, "Bool"),
      Descriptor("IgnoreMaxDist", 104, EnumBits, 1, 11, true, "Bool"),
      Descriptor("Storage", 104, EnumBits, 2, 12, true, "Storage"),
      Descriptor("FluxType", 104, EnumBits, 4, 14, true, "FluxType"),
      Descriptor("RandomizeType", 104, EnumBits, 3, 22, true, "RandomizeType"),
      Descriptor("LimitType", 104, EnumBits, 2, 18, true, "LimitType"),
      Descriptor("EntityLimitType", 104, EnumBits, 2, 20, true, "LimitType"),
      Descriptor("IsCinematic", 104, EnumBits, 1, 27, true, "Bool"),
      Descriptor("IsBig", 104, EnumBits, 1, 28, true, "Bool"),
      Descriptor("AmplitudePriority", 104, EnumBits, 1, 28, true, "Bool"),
      Descriptor("ContinuousPan", 104, EnumBits, 1, 30, true, "Bool"),
      Descriptor("RestartContextLoops", 104, EnumBits, 1, 31, true, "Bool")
    ]

  /** The windows of the curve word at offset 108, then the hashed references. */
  const CurveWordAndHashes: seq<Descriptor> := [
      Descriptor("DryMinCurve", 108, EnumBits, 6, 14, true, "Curve"),
      Descriptor("DryMaxCurve", 108, EnumBits, 6, 2, true, "Curve"),
      Descriptor("WetMinCurve", 108, EnumBits, 6, 20, true, "Curve"),
      Descriptor("WetMaxCurve", 108, EnumBits, 6, 8, true, "Curve"),
      Descriptor("NeverPlayTwice", 108, EnumBits, 1, 0, true, "Bool"),
      Descriptor("Duck", 112, Hash, 0, 0, false, ""),
      Descriptor("ContextType", 116, Hash, 0, 0, false, ""),
      Descriptor("ContextValue", 120, Hash, 0, 0, false, ""),
      Descriptor("ContextType1", 124, Hash, 0, 0, false, ""),
      Descriptor("ContextValue1", 128, Hash, 0, 0, false, ""),
      Descriptor("ContextType2", 132, Hash, 0, 0, false, ""),
      Descriptor("ContextValu2", 136, Hash, 0, 0, false, ""),
      Descriptor("ContextType3", 140, Hash, 0, 0, false, ""),
      Descriptor("ContextValue3", 144, Hash, 0, 0, false, ""),
      Descriptor("StopOnPlay", 148, Hash, 0, 0, false, ""),
      Descriptor("FutzPatch", 152, Hash, 0, 0, false, "")
    ]

  /** The decibel, time, pitch, distance and fade fields. */
  const Scalars: seq<Descriptor> := [
      Descriptor("ReverbSend", 156, FloatDBSPL, 0, 100, true, ""),
      Descriptor("CenterSend", 160, FloatDBSPL, 0, 100, true, ""),
      Descriptor("VolMin", 164, FloatDBSPL, 0, 100, true, ""),
      Descriptor("VolMax", 168, FloatDBSPL, 0, 100, true, ""),
      Descriptor("EnvelopPercent", 172, FloatDBSPL, 0, 100, true, ""),
      Descriptor("FluxTime", 176, UShort, 0, 65535, true, ""),
      Descriptor("StartDelay", 178, UShort, 0, 65535, true, ""),
      Descriptor("PitchMin", 180, Cents, -2400, 1200, true, ""),
      Descriptor("PitchMax", 182, Cents, -2400, 1200, true, ""),
      Descriptor("DistMin", 184, Distance, 0, 131070, true, ""),
      Descriptor("DistMaxDry", 186, Distance, 0, 131070, true, ""),
      Descriptor("DistMaxWet", 188, Distance, 0, 131070, true, ""),
      Descriptor("EnvelopMin", 190, Distance, 0, 131070, true, ""),
      Descriptor("EnvelopMax", 192, Distance, 0, 131070, true, ""),
      Descriptor("FadeIn", 202, Short, 0, 32768, true, ""),
      Descriptor("FadeOut", 202, Short, 0, 32768, true, ""),
      Descriptor("DopplerScale", 202, Short, -100, 100, true, "")
    ]

  /** The byte-sized fields, then the Template column, which has no place in the structure. */
  const Bytes: seq<Descriptor> := [
      Descriptor("PriorityThresholdMin", 204, NormByte, 0, 1, true, ""),
      Descriptor("PriorityThresholdMax", 205, NormByte, 0, 1, true, ""),
      Descriptor("Probability", 206, NormByte, 0, 1, true, ""),
      Descriptor("PriorityMin", 208, Byte, 0, 128, true, ""),
      Descriptor("PriorityMax", 209, Byte, 0, 128, true, ""),
      Descriptor("Pan", 210, EnumByte, 0, 0, true, "Pan"),
      Descriptor("LimitCount", 211, Byte, 0, 128, true, ""),
      Descriptor("EntityLimitCount", 212, Byte, 0, 128, true, ""),
      Descriptor("DuckGroup", 213, EnumByte, 0, 0, true, "DuckGroup"),
      Descriptor("Bus", 214, EnumByte, 0, 128, true, "Bus"),
      Descriptor("VolumeGroup", 215, EnumByte, 0, 128, true, "VolumeGroup"),
      Descriptor("Template", -1, String, 0, 0, false, "")
    ]

  /** Every column of the record, in declaration order. */
  const Fields: seq<Descriptor> := FlagWord + CurveWordAndHashes + Scalars + Bytes

  const FieldCount: nat := 71

  /** A record's properties: one value per column. */
  type Record = s: seq<Value> | |s| == FieldCount witness seq(FieldCount, i => Unset)
  const NameIndex: nat := 0
  const TemplateIndex: nat := 70

  /** A column with a place in the structure lies inside it, and a bit window lies inside its
      32-bit word and is at least one bit wide. */
  predicate WellPlaced(d: Descriptor) {
    (d.offset == -1 || (0 <= d.offset && d.offset + Width(d.kind) <= SizeOfStructure))
    && (IsBitWindow(d.kind) ==> 1 <= d.minimum && 0 <= d.maximum && d.minimum + d.maximum <= 32)
  }

  /** Every column but Template has a place, and no text column is editable. */
  predicate Placed(d: Descriptor) {
    WellPlaced(d) && d.offset != -1 && (d.kind == String ==> !d.editable)
  }

  lemma FlagWordPlaced()
    ensures forall i :: 0 <= i < |FlagWord| ==> Placed(FlagWord[i])
  {
  }

  lemma CurveWordAndHashesPlaced()
    ensures forall i :: 0 <= i < |CurveWordAndHashes| ==> Placed(CurveWordAndHashes[i])
  {
  }

  lemma ScalarsPlaced()
    ensures forall i :: 0 <= i < |Scalars| ==> Placed(Scalars[i])
  {
  }

  lemma BytesPlaced()
    ensures forall i :: 0 <= i < |Bytes| - 1 ==> Placed(Bytes[i])
  {
  }

  /** The shape of the table the rest of the model relies on. */
  lemma FieldsWellPlaced()
    ensures |Fields| == FieldCount
    ensures Fields[NameIndex].name == "Name" && Fields[NameIndex].kind == String
    ensures Fields[TemplateIndex].name == "Template" && Fields[TemplateIndex].kind == String
    ensures Fields[TemplateIndex].offset == -1 && !Fields[TemplateIndex].editable
    ensures forall i :: 0 <= i < |Fields| ==> WellPlaced(Fields[i])
    ensures forall i :: 0 <= i < |Fields| && i != TemplateIndex ==> Placed(Fields[i])
  {
    FlagWordPlaced();
    CurveWordAndHashesPlaced();
    ScalarsPlaced();
    BytesPlaced();
    forall i | 0 <= i < |Fields|
      ensures WellPlaced(Fields[i]) && (i != TemplateIndex ==> Placed(Fields[i]))
    {
      if i < 26 {
        assert Fields[i] == FlagWord[i];
      } else if i < 42 {
        assert Fields[i] == CurveWordAndHashes[i - 26];
      } else if i < 59 {
        assert Fields[i] == Scalars[i - 42];
      } else {
        assert Fields[i] == Bytes[i - 59];
      }
    }
  }

  /** No Hash column is editable, so SerializeToBo3 never stores one: a hash the game holds
      is written back as it was read. */
  lemma HashColumnsReadOnly()
    ensures forall i :: 0 <= i < |Fields| && Fields[i].kind == Hash ==> !Fields[i].editable
  {
    forall i | 0 <= i < |Fields| && Fields[i].kind == Hash
      ensures !Fields[i].editable
    {
      if i < 26 {
        assert Fields[i] == FlagWord[i];
      } else if i < 42 {
        assert Fields[i] == CurveWordAndHashes[i - 26];
      } else if i < 59 {
        assert Fields[i] == Scalars[i - 42];
      } else {
        assert Fields[i] == Bytes[i - 59];
      }
    }
  }

  /** The column a CSV header names (the Properties dictionary, keyed by column name with an
      ordinal comparison): the first column of that name, if any. */
  function FindField(name: string): (r: Option<nat>)
    ensures r.Some? ==> r.value < |Fields| && Fields[r.value].name == name
    ensures r.Some? ==> forall j :: 0 <= j < r.value ==> Fields[j].name != name
    ensures r.None? ==> forall j :: 0 <= j < |Fields| ==> Fields[j].name != name
  {
    FindIn(name, Fields)
  }

  /** The position of the first column of that name in a run of columns. */
  function FindIn(name: string, columns: seq<Descriptor>): (r: Option<nat>)
    ensures r.Some? ==> r.value < |columns| && columns[r.value].name == name
    ensures r.Some? ==> forall j :: 0 <= j < r.value ==> columns[j].name != name
    ensures r.None? ==> forall j :: 0 <= j < |columns| ==> columns[j].name != name
    decreases |columns|, name
  {
    if columns == [] then None
    else if columns[0].name == name then Some(0)
    else match FindIn(name, columns[1..])
      case None => None
      case Some(j) => Some(j + 1)
  }

  /** What DeserializeFromCSV does with a non-blank cell of a column of this kind. */
  datatype CsvTreatment = RawText | ParsedNumber | Ignored

  function Treatment(k: Kind): CsvTreatment {
    match k
    case String | Enum | EnumBits | EnumByte | Flag | Hash => RawText
    case Int | Cents | UShortDBSPL | FloatDBSPL | Short | UShort | Byte | NormByte | Distance => ParsedNumber
    case Float | FlagBits => Ignored
  }

  /** A column a CSV cell can set: its position in the table and its descriptor. */
  datatype Setter = Setter(column: nat, field: Descriptor)

  /** The column a CSV header sets: the first column of that name when DeserializeFromCSV's
      switch handles its kind, and none when that column's kind is ignored or no column has
      the name. */
  function SettableIn(name: string, columns: seq<Descriptor>): (r: Option<Setter>)
    ensures r.Some? ==> r.value.column < |columns| && r.value.field.name == name && Treatment(r.value.field.kind) != Ignored
    decreases |columns|, name
  {
    if columns == [] then None
    else if columns[0].name == name then (if Treatment(columns[0].kind) == Ignored then None else Some(Setter(0, columns[0])))
    else match SettableIn(name, columns[1..])
      case None => None
      case Some(s) => Some(Setter(s.column + 1, s.field))
  }

  /** SettableIn is the property lookup followed by the switch on the property's kind. */
  lemma {:induction false} SettableIsFoundAndHandled(name: string, columns: seq<Descriptor>)
    ensures SettableIn(name, columns)
         == match FindIn(name, columns)
            case None => None
            case Some(f) => if Treatment(columns[f].kind) == Ignored then None else Some(Setter(f, columns[f]))
    decreases |columns|
  {
    if columns != [] && columns[0].name != name {
      SettableIsFoundAndHandled(name, columns[1..]);
    }
  }

  /** A property holds text when its column is of a text kind and a double otherwise. */
  predicate HoldsText(k: Kind) {
    k == String || k == Enum || k == Flag || k == Hash || k == EnumBits || k == FlagBits || k == EnumByte
  }

  /** The value a property of this kind may hold: null, or text or a number as its type says. */
  predicate Fits(k: Kind, v: Value) {
    v == Unset || (HoldsText(k) && v.Text?) || (!HoldsText(k) && v.Number?)
  }

  predicate WellTyped(values: seq<Value>) {
    |values| == |Fields| && forall i :: 0 <= i < |Fields| ==> Fits(Fields[i].kind, values[i])
  }
}
