/** SoundAlias as an object: the live record's address, the bank whose tables it uses, the
    216 bytes last read from the game, and its properties, one per column of the descriptor
    table, null when unset. The byte-level meaning of each column is in Codec; here are the
    loops that read, write and merge whole records. */
module Alias {
  import opened Common
  import opened Text
  import opened Schema
  import opened Lookup
  import opened Codec
  import opened Foreign

  /** A record with every property null. */
  function Blank(): (r: seq<Value>)
    ensures |r| == FieldCount
    ensures forall i :: 0 <= i < |r| ==> r[i] == Unset
  {
    seq(FieldCount, i => Unset)
  }

  lemma BlankWellTyped()
    ensures |Blank()| == |Fields| && WellTyped(Blank())
  {
    FieldsWellPlaced();
  }

  /** The properties after DeserializeFromBo3 reads a buffer: every column with a place in the
      structure is decoded from it; Template, which has none, keeps its value. */
  function Decoded(env: Numerics, readText: int -> string, tables: Tables, buf: seq<byte>, values: seq<Value>): (r: seq<Value>)
    requires |buf| == SizeOfStructure && |values| == |Fields|
    ensures |r| == |Fields|
    ensures r[TemplateIndex] == values[TemplateIndex]
    ensures forall i :: 0 <= i < |Fields| && i != TemplateIndex ==> r[i] != Unset
    ensures WellTyped(values) ==> WellTyped(r)
  {
    FieldsWellPlaced();
    seq(|Fields|, i requires 0 <= i < |Fields| =>
      if Fields[i].offset > -1 then DecodeField(env, readText, tables, Fields[i], buf) else values[i])
  }

  /** The first record listed under each name of a bank, where there is one. */
  function Firsts(aliases: map<string, seq<SoundAlias>>): (r: map<string, seq<Value>>)
    reads set n | n in aliases && aliases[n] != [] :: aliases[n][0]
    ensures forall n :: n in r <==> n in aliases && aliases[n] != []
    ensures forall n :: n in r ==> r[n] == aliases[n][0].values
  {
    map n | n in aliases && aliases[n] != [] :: aliases[n][0].values
  }

  /** The first records of a bank are as they were while none of them has changed. */
  twostate lemma FirstsUnchanged(aliases: map<string, seq<SoundAlias>>)
    requires forall n :: n in aliases && aliases[n] != [] ==> unchanged(aliases[n][0])
    ensures Firsts(aliases) == old(Firsts(aliases))
  {
  }

  /** What SetFromTemplate makes of a record, given the first record under each name of the
      template bank: nothing changes unless Template is set and names a template; then every
      null property takes the template's value. */
  function ApplyTemplate(values: seq<Value>, templates: map<string, seq<Value>>): (r: seq<Value>)
    requires |values| == |Fields|
    ensures |r| == |Fields|
    ensures forall i :: 0 <= i < |Fields| && values[i] != Unset ==> r[i] == values[i]
    ensures (!values[TemplateIndex].Text? || values[TemplateIndex].s !in templates) ==> r == values
  {
    FieldsWellPlaced();
    match values[TemplateIndex]
    case Text(name) =>
      if name in templates && |templates[name]| == |Fields| then TemplateFill(values, templates[name]) else values
    case _ => values
  }

  /** Applying the templates a second time changes nothing: Template itself is set, so it
      names the same template, and that template fills nothing more. */
  lemma ApplyTemplateIdempotent(values: seq<Value>, templates: map<string, seq<Value>>)
    requires |values| == |Fields|
    ensures ApplyTemplate(ApplyTemplate(values, templates), templates) == ApplyTemplate(values, templates)
  {
    FieldsWellPlaced();
    if values[TemplateIndex].Text? {
      var name := values[TemplateIndex].s;
      if name in templates && |templates[name]| == |Fields| {
        TemplateFillIdempotent(values, templates[name]);
      }
    }
  }

  /** Well-typed records filled from well-typed templates stay well typed. */
  lemma ApplyTemplateWellTyped(values: seq<Value>, templates: map<string, seq<Value>>)
    requires WellTyped(values)
    requires forall n :: n in templates ==> WellTyped(templates[n])
    ensures WellTyped(ApplyTemplate(values, templates))
  {
    FieldsWellPlaced();
    if values[TemplateIndex].Text? && values[TemplateIndex].s in templates {
      TemplateFillWellTyped(values, templates[values[TemplateIndex].s]);
    }
  }

  /** The record a CSV row becomes (the SoundAlias(line, header, bank) constructor): the row's
      cells fill a blank record, and the templates then fill what the row left null. */
  function RowRecord(env: Numerics, line: seq<string>, header: seq<string>, templates: map<string, seq<Value>>): (r: seq<Value>)
    ensures |r| == |Fields|
  {
    BlankWellTyped();
    ApplyTemplate(CsvPrefix(env, Fields, line, header, Blank(), |line|), templates)
  }

  /** A CSV row always yields a well-typed record when the templates are well typed. */
  lemma RowRecordWellTyped(env: Numerics, line: seq<string>, header: seq<string>, templates: map<string, seq<Value>>)
    requires forall n :: n in templates ==> WellTyped(templates[n])
    ensures WellTyped(RowRecord(env, line, header, templates))
  {
    BlankWellTyped();
    CsvWellTyped(env, line, header, Blank(), |line|);
    ApplyTemplateWellTyped(CsvPrefix(env, Fields, line, header, Blank(), |line|), templates);
  }

  class SoundAlias {
    /** Where the record lives in the game, or -1 for a record read from a CSV file. */
    const address: int
    /** The bank's enumeration and hash tables. */
    const tables: Tables
    /** Buffer: the bytes last read from the game (empty before the first read). */
    var buffer: array<byte>
    /** The properties, in the order of Schema.Fields. */
    var values: Record

    /** SoundAlias(address, bank): a live record with nothing read yet. */
    constructor Bound(address: int, tables: Tables)
      ensures this.address == address && this.tables == tables && values == Blank()
      ensures fresh(buffer) && buffer.Length == 0
    {
      this.address := address;
      this.tables := tables;
      buffer := new byte[0];
      values := Blank();
    }

    /** SoundAlias(line, header, bank): a record read from a CSV row, then filled from the
        first record under its Template in the template bank. */
    constructor FromCsv(env: Numerics, line: seq<string>, header: seq<string>, tables: Tables, templates: map<string, seq<SoundAlias>>)
      ensures address == -1 && this.tables == tables
      ensures values == RowRecord(env, line, header, old(Firsts(templates)))
    {
      ghost var firsts := Firsts(templates);
      address := -1;
      this.tables := tables;
      buffer := new byte[0];
      values := Blank();
      new;
      assert forall n :: n in templates && templates[n] != [] ==> templates[n][0] != this;
      DeserializeFromCSV(env, line, header);
      assert Firsts(templates) == firsts;
      SetFromTemplate(templates);
    }

    /** DeserializeFromBo3: reads the 216 bytes at the record's address into a new Buffer and
        decodes every column that has a place in the structure. */
    method DeserializeFromBo3(env: Numerics, game: Process)
      modifies this
      ensures fresh(buffer) && buffer[..] == Window(game.memory, address, SizeOfStructure)
      ensures values == Decoded(env, game.readText, tables, buffer[..], old(values))
    {
      FieldsWellPlaced();
      buffer := game.ReadBytes(address, SizeOfStructure);
      var data := buffer[..];
      var decoded := values;
      var i := 0;
      while i < |Fields|
        invariant 0 <= i <= |Fields| && |decoded| == |Fields|
        invariant forall j :: 0 <= j < i ==> decoded[j] == Decoded(env, game.readText, tables, data, values)[j]
        invariant forall j :: i <= j < |Fields| ==> decoded[j] == values[j]
      {
        if Fields[i].offset > -1 {
          decoded := decoded[i := DecodeField(env, game.readText, tables, Fields[i], data)];
        }
        i := i + 1;
      }
      values := decoded;
    }

    /** SerializeToBo3: stores every editable, placed, non-null property into Buffer in place,
        column by column in declaration order, then writes the whole buffer to the game. An
        exception from a conversion stops the pass: the bytes stored so far stay in Buffer
        and nothing is written. */
    method SerializeToBo3(env: Numerics, game: Process) returns (error: Option<Error>)
      requires buffer.Length == SizeOfStructure
      modifies buffer, game
      ensures buffer[..] == EncodeFrom(env, tables, values, old(buffer[..]), 0).buffer
      ensures error == EncodeFrom(env, tables, values, old(buffer[..]), 0).error
      ensures error.None? ==> game.memory == Stored(old(game.memory), address, buffer[..])
      ensures error.None? ==> game.writes == old(game.writes) + [Write(address, buffer[..])]
      ensures error.Some? ==> game.memory == old(game.memory) && game.writes == old(game.writes)
    {
      FieldsWellPlaced();
      var i := 0;
      while i < |Fields|
        invariant 0 <= i <= |Fields| && buffer.Length == SizeOfStructure
        invariant EncodeFrom(env, tables, values, buffer[..], i) == EncodeFrom(env, tables, values, old(buffer[..]), 0)
        invariant game.memory == old(game.memory) && game.writes == old(game.writes)
      {
        error := StoreColumn(env, tables, buffer, Fields[i], values[i]);
        if error.Some? {
          return;
        }
        i := i + 1;
      }
      game.WriteBytes(address, buffer[..]);
      error := None;
    }

    /** CopyFrom: every property takes the other record's value, null and non-editable ones
        included. */
    method CopyFrom(alias: SoundAlias)
      modifies this
      ensures values == old(alias.values)
      ensures buffer == old(buffer)
    {
      ghost var source := alias.values;
      var i := 0;
      while i < |Fields|
        invariant 0 <= i <= |Fields| && |values| == |Fields|
        invariant alias == this ==> values == source
        invariant alias != this ==> alias.values == source
        invariant forall j :: 0 <= j < i ==> values[j] == source[j]
        invariant buffer == old(buffer)
      {
        values := values[i := alias.values[i]];
        i := i + 1;
      }
      assert values == source;
    }

    /** DeserializeFromCSV: the row's cells, left to right, set the columns their headers name. */
    method DeserializeFromCSV(env: Numerics, line: seq<string>, header: seq<string>)
      modifies this
      ensures values == CsvPrefix(env, Fields, line, header, old(values), |line|)
      ensures buffer == old(buffer)
    {
      ghost var start := values;
      var i := 0;
      while i < |line|
        invariant 0 <= i <= |line|
        invariant values == CsvPrefix(env, Fields, line, header, start, i)
        invariant buffer == old(buffer)
      {
        CsvStep(env, Fields, line, header, start, i);
        var target := CellTarget(Fields, line, header, i);
        if target.Some? {
          values := values[target.value.column := CellValue(env, target.value.field, line[i])];
        }
        i := i + 1;
      }
    }

    /** SetFromTemplate: when Template names a list in the template bank, every null property
        takes the value of the list's first record. */
    method SetFromTemplate(templates: map<string, seq<SoundAlias>>)
      modifies this
      ensures values == ApplyTemplate(old(values), old(Firsts(templates)))
      ensures buffer == old(buffer)
    {
      FieldsWellPlaced();
      if !values[TemplateIndex].Text? {
        return;
      }
      var name := values[TemplateIndex].s;
      if name !in templates || templates[name] == [] {
        return;
      }
      var template := templates[name][0];
      var source := template.values;
      if |source| != |Fields| {
        return;
      }
      ghost var start := values;
      var i := 0;
      while i < |Fields|
        invariant 0 <= i <= |Fields| && |values| == |Fields|
        invariant forall j :: 0 <= j < i ==> values[j] == TemplateFill(start, source)[j]
        invariant forall j :: i <= j < |Fields| ==> values[j] == start[j]
        invariant buffer == old(buffer)
      {
        if values[i] == Unset && source[i] != Unset {
          values := values[i := source[i]];
        }
        i := i + 1;
      }
    }
  }

  /** One case of SerializeToBo3's switch: a visited column's value is converted and stored
      in the buffer, or the conversion raises and the buffer is left alone. */
  method StoreColumn(env: Numerics, tables: Tables, buffer: array<byte>, d: Descriptor, v: Value) returns (error: Option<Error>)
    requires WellPlaced(d) && buffer.Length == SizeOfStructure
    modifies buffer
    ensures buffer[..] == EncodeColumn(env, tables, d, v, old(buffer[..])).buffer
    ensures error == EncodeColumn(env, tables, d, v, old(buffer[..])).error
  {
    error := None;
    if Encodes(d, v) {
      match FieldBytes(env, tables, d, v, buffer[..])
      case Err(e) =>
        error := Some(e);
      case Ok(None) =>
      case Ok(Some(b)) =>
        SetBytes(buffer, d.offset, b);
    }
  }

  /** SetBytes: stores the bytes at the offset, as one unaligned store. */
  method SetBytes(buffer: array<byte>, offset: int, bytes: seq<byte>)
    requires 0 <= offset && offset + |bytes| <= buffer.Length
    modifies buffer
    ensures buffer[..] == Splice(old(buffer[..]), offset, bytes)
  {
    forall k | 0 <= k < |bytes| {
      buffer[offset + k] := bytes[k];
    }
  }
}
