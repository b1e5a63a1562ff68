/** Instance: the patcher's state and its three passes. The template pass reads every CSV file
    under the templates folder into a new template bank; the alias pass reads the allowed CSV
    files under the aliases folder into a new source bank, filling each row from the template
    bank; the override pass copies every source alias onto the live records of the first
    loaded bank that has its name and writes them back into the game. */
module Harmony {
  import opened Common
  import opened Text
  import opened Schema
  import opened Lookup
  import opened Codec
  import opened Foreign
  import opened Alias
  import opened Bank

  // ---------------------------------------------------------------------------------------
  // The allow-list

  /** IsAliasFileValid: with no names given every file is read; otherwise exactly the files
      whose name, lower-cased, is in the list. */
  function IsAliasFileValid(aliasFileNames: seq<string>, fileName: string): (r: bool)
    ensures |aliasFileNames| == 0 ==> r
    ensures r && |aliasFileNames| > 0 ==>
      exists i :: 0 <= i < |aliasFileNames| && ToLower(aliasFileNames[i]) == ToLower(fileName)
  {
    ToLowerIdempotent(fileName);
    |aliasFileNames| == 0 || ToLower(fileName) in aliasFileNames
  }

  /** Every name in the list is in lower case, as Program.Main puts them there. */
  predicate AllLowerCase(aliasFileNames: seq<string>) {
    forall i :: 0 <= i < |aliasFileNames| ==> ToLower(aliasFileNames[i]) == aliasFileNames[i]
  }

  /** With a lower-cased list, a file is read exactly when its name matches one of the given
      names up to the case of its letters. */
  lemma AliasFileMatchIgnoresCase(aliasFileNames: seq<string>, fileName: string)
    requires AllLowerCase(aliasFileNames) && |aliasFileNames| > 0
    ensures IsAliasFileValid(aliasFileNames, fileName)
        <==> exists i :: 0 <= i < |aliasFileNames| && ToLower(aliasFileNames[i]) == ToLower(fileName)
  {
    if IsAliasFileValid(aliasFileNames, fileName) {
      var i :| 0 <= i < |aliasFileNames| && aliasFileNames[i] == ToLower(fileName);
      ToLowerIdempotent(fileName);
      assert ToLower(aliasFileNames[i]) == ToLower(fileName);
    }
  }

  /** A name with an upper-case letter in the list would never match: the name of a file is
      lower-cased before the lookup. */
  lemma UpperCaseEntryNeverMatches(aliasFileNames: seq<string>, i: nat, k: nat, fileName: string)
    requires i < |aliasFileNames| && k < |aliasFileNames[i]| && 'A' <= aliasFileNames[i][k] <= 'Z'
    ensures ToLower(fileName) != aliasFileNames[i]
  {
    if |fileName| == |aliasFileNames[i]| {
      var c := fileName[k];
      assert ToLower(fileName)[k] == ToLowerChar(c);
      assert !('A' <= ToLowerChar(c) <= 'Z');
    }
  }

  // ---------------------------------------------------------------------------------------
  // The parse passes

  /** A CSV file under a sound folder: its name without the extension, and the rows
      CSV.LoadFile yields before the file ends or reading it fails. */
  datatype CsvFile = CsvFile(stem: string, rows: seq<seq<string>>)

  /** The Name property of a record, when it is neither null nor white space: the name the
      record is filed under. */
  function KeptName(values: seq<Value>): (r: Option<string>)
    requires NameIndex < |values|
    ensures r.Some? <==> values[NameIndex].Text? && !IsNullOrWhiteSpace(values[NameIndex])
    ensures r.Some? ==> values[NameIndex] == Text(r.value)
  {
    match values[NameIndex]
    case Text(s) => if IsBlank(s) then None else Some(s)
    case _ => None
  }

  /** One data row of a file: the record it becomes, filed last under its name when it has
      one, and dropped otherwise. */
  function AddRow(env: Numerics, c: Contents, line: seq<string>, header: seq<string>, templates: map<string, seq<Value>>): Contents {
    var record := RowRecord(env, line, header, templates);
    match KeptName(record)
    case Some(name) => Added(c, name, record)
    case None => c
  }

  /** The rows of a file from row k on in the template pass. Row 0 is the header; each row
      resolves its Template against the records the pass has filed so far. */
  function TemplateRows(env: Numerics, c: Contents, rows: seq<seq<string>>, k: nat): Contents
    requires 1 <= k
    decreases |rows| - k
  {
    if k >= |rows| then c
    else TemplateRows(env, AddRow(env, c, rows[k], rows[0], FirstRecords(c.records)), rows, k + 1)
  }

  /** The rows of a file from row k on in the alias pass, with the template bank fixed. */
  function AliasRows(env: Numerics, c: Contents, rows: seq<seq<string>>, k: nat, templates: map<string, seq<Value>>): Contents
    requires 1 <= k
    decreases |rows| - k
  {
    if k >= |rows| then c
    else AliasRows(env, AddRow(env, c, rows[k], rows[0], templates), rows, k + 1, templates)
  }

  /** ParseTemplates from file f on: every file, in order. */
  function TemplateFiles(env: Numerics, c: Contents, files: seq<CsvFile>, f: nat): Contents
    requires f <= |files|
    decreases |files| - f
  {
    if f == |files| then c
    else TemplateFiles(env, TemplateRows(env, c, files[f].rows, 1), files, f + 1)
  }

  /** ParseAliases from file f on: the files the allow-list lets through, in order. */
  function AliasFiles(env: Numerics, c: Contents, aliasFileNames: seq<string>, templates: map<string, seq<Value>>, files: seq<CsvFile>, f: nat): Contents
    requires f <= |files|
    decreases |files| - f
  {
    if f == |files| then c
    else AliasFiles(env, AliasFile(env, c, aliasFileNames, templates, files[f]), aliasFileNames, templates, files, f + 1)
  }

  /** One file of ParseAliases: its rows when the allow-list lets it through, nothing otherwise. */
  function AliasFile(env: Numerics, c: Contents, aliasFileNames: seq<string>, templates: map<string, seq<Value>>, file: CsvFile): Contents {
    if IsAliasFileValid(aliasFileNames, file.stem) then AliasRows(env, c, file.rows, 1, templates) else c
  }

  /** What both passes keep true of a bank: every name is listed once, in the order of its
      first record; every list holds at least one record; and every record has a full set
      of properties and is filed under its own, non-blank Name. */
  ghost predicate Filed(c: Contents) {
    && Distinct(c.order)
    && (forall n :: n in c.records <==> n in c.order)
    && (forall n :: n in c.records ==> c.records[n] != [])
    && (forall n, i :: n in c.records && 0 <= i < |c.records[n]| ==>
          |c.records[n][i]| == FieldCount && KeptName(c.records[n][i]) == Some(n))
  }

  lemma AddRowFiled(env: Numerics, c: Contents, line: seq<string>, header: seq<string>, templates: map<string, seq<Value>>)
    requires Filed(c)
    ensures Filed(AddRow(env, c, line, header, templates))
  {
    FieldsWellPlaced();
    var record := RowRecord(env, line, header, templates);
    var r := AddRow(env, c, line, header, templates);
    if KeptName(record).Some? {
      var name := KeptName(record).value;
      assert r == Added(c, name, record);
      forall n | n in r.records
        ensures r.records[n] != []
        ensures forall i :: 0 <= i < |r.records[n]| ==> |r.records[n][i]| == FieldCount && KeptName(r.records[n][i]) == Some(n)
      {
        if n == name {
          var list := if name in c.records then c.records[name] else [];
          assert r.records[n] == list + [record];
        }
      }
    }
  }

  /** The template pass keeps a bank filed. */
  lemma {:induction false} TemplateRowsFiled(env: Numerics, c: Contents, rows: seq<seq<string>>, k: nat)
    requires 1 <= k && Filed(c)
    ensures Filed(TemplateRows(env, c, rows, k))
    decreases |rows| - k
  {
    if k < |rows| {
      AddRowFiled(env, c, rows[k], rows[0], FirstRecords(c.records));
      TemplateRowsFiled(env, AddRow(env, c, rows[k], rows[0], FirstRecords(c.records)), rows, k + 1);
    }
  }

  /** The alias pass keeps a bank filed. */
  lemma {:induction false} AliasRowsFiled(env: Numerics, c: Contents, rows: seq<seq<string>>, k: nat, templates: map<string, seq<Value>>)
    requires 1 <= k && Filed(c)
    ensures Filed(AliasRows(env, c, rows, k, templates))
    decreases |rows| - k
  {
    if k < |rows| {
      AddRowFiled(env, c, rows[k], rows[0], templates);
      AliasRowsFiled(env, AddRow(env, c, rows[k], rows[0], templates), rows, k + 1, templates);
    }
  }

  /** A template bank built by the template pass is filed. */
  lemma {:induction false} TemplateFilesFiled(env: Numerics, c: Contents, files: seq<CsvFile>, f: nat)
    requires f <= |files| && Filed(c)
    ensures Filed(TemplateFiles(env, c, files, f))
    decreases |files| - f
  {
    if f < |files| {
      TemplateRowsFiled(env, c, files[f].rows, 1);
      TemplateFilesFiled(env, TemplateRows(env, c, files[f].rows, 1), files, f + 1);
    }
  }

  /** A source bank built by the alias pass is filed. */
  lemma {:induction false} AliasFilesFiled(env: Numerics, c: Contents, aliasFileNames: seq<string>, templates: map<string, seq<Value>>, files: seq<CsvFile>, f: nat)
    requires f <= |files| && Filed(c)
    ensures Filed(AliasFiles(env, c, aliasFileNames, templates, files, f))
    decreases |files| - f
  {
    if f < |files| {
      if IsAliasFileValid(aliasFileNames, files[f].stem) {
        AliasRowsFiled(env, c, files[f].rows, 1, templates);
      }
      AliasFilesFiled(env, AliasFile(env, c, aliasFileNames, templates, files[f]), aliasFileNames, templates, files, f + 1);
    }
  }

  /** A file that fails after its first m rows leaves the bank as the whole file would have
      left it after those rows: the records already filed stay. */
  lemma {:induction false} TemplateRowsPrefix(env: Numerics, c: Contents, rows: seq<seq<string>>, m: nat, k: nat)
    requires 1 <= k <= m <= |rows|
    ensures TemplateRows(env, c, rows, k) == TemplateRows(env, TemplateRows(env, c, rows[..m], k), rows, m)
    decreases m - k
  {
    if k < m {
      assert rows[..m][k] == rows[k] && rows[..m][0] == rows[0];
      TemplateRowsPrefix(env, AddRow(env, c, rows[k], rows[0], FirstRecords(c.records)), rows, m, k + 1);
    }
  }

  /** The same for the alias pass. */
  lemma {:induction false} AliasRowsPrefix(env: Numerics, c: Contents, rows: seq<seq<string>>, m: nat, k: nat, templates: map<string, seq<Value>>)
    requires 1 <= k <= m <= |rows|
    ensures AliasRows(env, c, rows, k, templates) == AliasRows(env, AliasRows(env, c, rows[..m], k, templates), rows, m, templates)
    decreases m - k
  {
    if k < m {
      assert rows[..m][k] == rows[k] && rows[..m][0] == rows[0];
      AliasRowsPrefix(env, AddRow(env, c, rows[k], rows[0], templates), rows, m, k + 1, templates);
    }
  }

  /** A file holding only its header row files nothing. */
  lemma HeaderOnly(env: Numerics, c: Contents, header: seq<string>, templates: map<string, seq<Value>>)
    ensures TemplateRows(env, c, [header], 1) == c
    ensures AliasRows(env, c, [header], 1, templates) == c
  {
  }

  /** In the template pass the template a name stands for is the first record filed under
      it: later rows never change the first record of a list. */
  lemma {:induction false} TemplateRowsKeepFirsts(env: Numerics, c: Contents, rows: seq<seq<string>>, k: nat, name: string)
    requires 1 <= k && name in FirstRecords(c.records)
    ensures name in FirstRecords(TemplateRows(env, c, rows, k).records)
    ensures FirstRecords(TemplateRows(env, c, rows, k).records)[name] == FirstRecords(c.records)[name]
    decreases |rows| - k
  {
    if k < |rows| {
      var next := AddRow(env, c, rows[k], rows[0], FirstRecords(c.records));
      var record := RowRecord(env, rows[k], rows[0], FirstRecords(c.records));
      if KeptName(record).Some? {
        FirstRecordsAdded(c, KeptName(record).value, record);
      }
      assert name in FirstRecords(next.records) && FirstRecords(next.records)[name] == FirstRecords(c.records)[name];
      TemplateRowsKeepFirsts(env, next, rows, k + 1, name);
    }
  }

  // ---------------------------------------------------------------------------------------
  // The override pass

  /** A live record as the override pass sees it: where it lives in the game and the tables
      it encodes with. */
  datatype Target = Target(address: int, tables: Tables)

  function Targets(list: seq<SoundAlias>): (r: seq<Target>)
    ensures |r| == |list| && forall i :: 0 <= i < |list| ==> r[i] == Target(list[i].address, list[i].tables)
  {
    seq(|list|, i requires 0 <= i < |list| => Target(list[i].address, list[i].tables))
  }

  /** A loaded bank as the override pass sees it: the live records under each name. */
  function View(aliases: map<string, seq<SoundAlias>>): (r: map<string, seq<Target>>)
    ensures r.Keys == aliases.Keys && forall n :: n in aliases ==> r[n] == Targets(aliases[n])
  {
    map n | n in aliases :: Targets(aliases[n])
  }

  /** Banks, as the override pass sees them. */
  function LiveView(banks: seq<SoundBank>): (r: seq<map<string, seq<Target>>>)
    reads set b | b in banks
    ensures |r| == |banks| && forall b :: 0 <= b < |banks| ==> r[b] == View(banks[b].aliases)
  {
    seq(|banks|, b requires 0 <= b < |banks| reads set b | b in banks => View(banks[b].aliases))
  }

  /** The live list a source name goes to: the list in the first of the banks, from bank b on,
      that has the name. */
  function FirstMatch(view: seq<map<string, seq<Target>>>, name: string, b: nat): (r: Option<seq<Target>>)
    decreases |view| - b
  {
    if b >= |view| then None
    else if name in view[b] then Some(view[b][name])
    else FirstMatch(view, name, b + 1)
  }

  /** FirstMatch finds the name in the first bank that has it, and nothing when none has. */
  lemma {:induction false} FirstMatchIsFirst(view: seq<map<string, seq<Target>>>, name: string, b: nat)
    ensures FirstMatch(view, name, b).None? <==> forall c :: b <= c < |view| ==> name !in view[c]
    ensures FirstMatch(view, name, b).Some? ==>
      exists c :: b <= c < |view| && name in view[c] && FirstMatch(view, name, b).value == view[c][name]
               && forall d :: b <= d < c ==> name !in view[d]
    decreases |view| - b
  {
    if b < |view| && name !in view[b] {
      FirstMatchIsFirst(view, name, b + 1);
    }
  }

  /** The source row live record i takes when the source has `count` rows: row i, or the last
      row when the source has fewer rows than the game has records. */
  function SourceIndex(i: nat, count: nat): int {
    if i < count then i else count - 1
  }

  /** One live record to override: where it is and the properties it takes. */
  datatype Job = Job(target: Target, values: seq<Value>)

  /** The live records of a name paired with its source rows, live record i with row
      SourceIndex(i, |sources|). */
  function Jobs(targets: seq<Target>, sources: seq<seq<Value>>): (r: seq<Job>)
    requires sources != []
    ensures |r| == |targets|
    ensures forall i :: 0 <= i < |targets| ==> r[i].target == targets[i]
  {
    seq(|targets|, i requires 0 <= i < |targets| => Job(targets[i], sources[SourceIndex(i, |sources|)]))
  }

  /** Every live record past the source's last row takes the last row; the others take the
      row of their own position. */
  lemma JobsClamp(targets: seq<Target>, sources: seq<seq<Value>>, i: nat)
    requires sources != [] && i < |targets|
    ensures i < |sources| ==> Jobs(targets, sources)[i].values == sources[i]
    ensures |sources| <= i ==> Jobs(targets, sources)[i].values == sources[|sources| - 1]
  {
  }

  /** The game's memory, the writes made to it so far, and the exception that stopped the
      pass, if one did. */
  datatype Outcome = Outcome(memory: int -> byte, writes: seq<Write>, error: Option<Error>)

  /** How a record's bytes are rebuilt before they are written back: from the record's
      tables, its properties and the 216 bytes read at its address. */
  type Serializer = (Tables, seq<Value>, seq<byte>) -> Encoded

  /** SerializeToBo3's pass over the bytes DeserializeFromBo3 read, for a record with a full
      set of properties. */
  function Serialize(env: Numerics): Serializer {
    (t: Tables, v: seq<Value>, b: seq<byte>) =>
      if |v| == |Fields| && |b| == SizeOfStructure then EncodeFrom(env, t, v, b, 0) else Encoded(b, None)
  }

  /** One live record overridden: DeserializeFromBo3 reads its bytes, CopyFrom gives it the
      source row's properties, and SerializeToBo3 stores them into the bytes read and writes
      the whole record back, or raises and writes nothing. */
  function RunJob(ser: Serializer, o: Outcome, job: Job): Outcome {
    var e := ser(job.target.tables, job.values, Window(o.memory, job.target.address, SizeOfStructure));
    if e.error.Some? then Outcome(o.memory, o.writes, e.error)
    else Outcome(Stored(o.memory, job.target.address, e.buffer), o.writes + [Write(job.target.address, e.buffer)], None)
  }

  /** The jobs from job i on, in order, until one raises. */
  function RunFrom(ser: Serializer, o: Outcome, jobs: seq<Job>, i: nat): Outcome
    requires i <= |jobs|
    decreases |jobs| - i
  {
    if i == |jobs| then o
    else
      var next := RunJob(ser, o, jobs[i]);
      if next.error.Some? then next else RunFrom(ser, next, jobs, i + 1)
  }

  /** The inner loop of OverrideAliases for one name: nothing for an empty live list; an
      IndexOutOfRange for a non-empty live list and an empty source list; otherwise every
      live record, in order, from its source row. */
  function OverrideList(ser: Serializer, o: Outcome, targets: seq<Target>, sources: seq<seq<Value>>): Outcome {
    if targets == [] then o
    else if sources == [] then Outcome(o.memory, o.writes, Some(IndexOutOfRange))
    else RunFrom(ser, o, Jobs(targets, sources), 0)
  }

  /** Every source list of a bank has full sets of properties. */
  predicate SourcesSized(sources: map<string, seq<seq<Value>>>) {
    forall n, i :: n in sources && 0 <= i < |sources[n]| ==> |sources[n][i]| == FieldCount
  }

  /** One source name: the live list of the first bank that has it, overridden; nothing when
      no bank has it. */
  function OverrideName(ser: Serializer, o: Outcome, view: seq<map<string, seq<Target>>>, name: string, sources: seq<seq<Value>>): Outcome {
    match FirstMatch(view, name, 0)
    case None => o
    case Some(targets) => OverrideList(ser, o, targets, sources)
  }

  /** OverrideAliases from the k-th source name on, in the source bank's order, until an
      exception stops the pass. */
  function OverrideFrom(ser: Serializer, o: Outcome, view: seq<map<string, seq<Target>>>, names: seq<string>, sources: map<string, seq<seq<Value>>>, k: nat): (r: Outcome)
    requires k <= |names| && forall n :: n in names ==> n in sources
    ensures o.writes <= r.writes
    decreases |names| - k
  {
    if k == |names| then o
    else
      var next := OverrideName(ser, o, view, names[k], sources[names[k]]);
      OverrideNameKeepsWrites(ser, o, view, names[k], sources[names[k]]);
      if next.error.Some? then next else OverrideFrom(ser, next, view, names, sources, k + 1)
  }

  /** The jobs from job i on add one write per job, at the job's address and in job order,
      up to the one that raises; earlier writes are never taken back. */
  lemma {:induction false} RunFromWrites(ser: Serializer, o: Outcome, jobs: seq<Job>, i: nat)
    requires i <= |jobs|
    ensures var r := RunFrom(ser, o, jobs, i);
      o.writes <= r.writes && |r.writes| - |o.writes| <= |jobs| - i
      && (r.error.None? ==> |r.writes| - |o.writes| == |jobs| - i)
      && forall j :: |o.writes| <= j < |r.writes| ==> r.writes[j].address == jobs[i + j - |o.writes|].target.address
    decreases |jobs| - i
  {
    if i < |jobs| {
      var next := RunJob(ser, o, jobs[i]);
      if next.error.None? {
        RunFromWrites(ser, next, jobs, i + 1);
        var r := RunFrom(ser, next, jobs, i + 1);
        forall j | |o.writes| <= j < |r.writes|
          ensures r.writes[j].address == jobs[i + j - |o.writes|].target.address
        {
          if j == |o.writes| {
            assert r.writes[j] == next.writes[j];
          }
        }
      }
    }
  }

  /** The record written for a job differs from the bytes read at its address only in the
      bytes of editable, placed, non-null, non-text columns. */
  lemma RunJobFrame(env: Numerics, o: Outcome, job: Job, k: int)
    requires |job.values| == |Fields| && 0 <= k < SizeOfStructure && Untouched(job.values, 0, k)
    ensures var r := RunJob(Serialize(env), o, job);
      r.error.None? ==> r.writes[|o.writes|].data[k] == o.memory(job.target.address + k)
  {
    var window := Window(o.memory, job.target.address, SizeOfStructure);
    assert window[k] == o.memory(job.target.address + k);
    var e := EncodeFrom(env, job.target.tables, job.values, window, 0);
    assert Serialize(env)(job.target.tables, job.values, window) == e;
    EncodeFrame(env, job.target.tables, job.values, window, 0, k);
  }

  /** Overriding one name only ever adds writes. */
  lemma OverrideNameKeepsWrites(ser: Serializer, o: Outcome, view: seq<map<string, seq<Target>>>, name: string, sources: seq<seq<Value>>)
    ensures o.writes <= OverrideName(ser, o, view, name, sources).writes
  {
    match FirstMatch(view, name, 0) {
      case None =>
      case Some(targets) =>
        if targets != [] && sources != [] {
          RunFromWrites(ser, o, Jobs(targets, sources), 0);
        }
    }
  }

  /** A name no loaded bank has is passed over: nothing is written for it. */
  lemma NameNotFound(ser: Serializer, o: Outcome, view: seq<map<string, seq<Target>>>, names: seq<string>, sources: map<string, seq<seq<Value>>>, k: nat)
    requires k < |names| && (forall n :: n in names ==> n in sources) && o.error.None?
    requires forall b :: 0 <= b < |view| ==> names[k] !in view[b]
    ensures OverrideFrom(ser, o, view, names, sources, k) == OverrideFrom(ser, o, view, names, sources, k + 1)
  {
    FirstMatchIsFirst(view, names[k], 0);
  }

  /** The jobs of a name raise only conversion errors. */
  lemma {:induction false} RunFromRaises(env: Numerics, o: Outcome, jobs: seq<Job>, i: nat)
    requires i <= |jobs| && o.error.None?
    ensures var e := RunFrom(Serialize(env), o, jobs, i).error;
      e.Some? ==> e.value == Overflow || e.value == InvalidCast
    decreases |jobs| - i
  {
    if i < |jobs| {
      var job := jobs[i];
      var window := Window(o.memory, job.target.address, SizeOfStructure);
      if |job.values| == |Fields| {
        EncodeFromRaises(env, job.target.tables, job.values, window, 0);
      }
      var next := RunJob(Serialize(env), o, job);
      if next.error.None? {
        RunFromRaises(env, next, jobs, i + 1);
      }
    }
  }

  /** A source bank built by the parse passes never raises IndexOutOfRange: each of its
      lists holds a record, so every live record has a source row to take. */
  lemma {:induction false} FiledNeverOutOfRange(env: Numerics, o: Outcome, view: seq<map<string, seq<Target>>>, c: Contents, k: nat)
    requires Filed(c) && k <= |c.order| && o.error.None?
    ensures OverrideFrom(Serialize(env), o, view, c.order, c.records, k).error != Some(IndexOutOfRange)
    decreases |c.order| - k
  {
    if k < |c.order| {
      var name := c.order[k];
      var next := OverrideName(Serialize(env), o, view, name, c.records[name]);
      match FirstMatch(view, name, 0) {
        case None =>
        case Some(targets) =>
          if targets != [] {
            RunFromRaises(env, o, Jobs(targets, c.records[name]), 0);
          }
      }
      if next.error.None? {
        FiledNeverOutOfRange(env, next, view, c, k + 1);
      }
    }
  }

  // ---------------------------------------------------------------------------------------
  // The patcher

  /** The inner loop of OverrideAliases for one name: each live record in turn is read from
      the game, takes the properties of its source row and is written back; the first
      exception ends the loop. */
  method OverrideRecords(env: Numerics, game: Process, loaded: seq<SoundAlias>, sources: seq<SoundAlias>) returns (error: Option<Error>)
    requires forall j :: 0 <= j < |sources| ==> sources[j] !in loaded
    modifies game, set i | 0 <= i < |loaded| :: loaded[i]
    ensures Outcome(game.memory, game.writes, error)
         == OverrideList(Serialize(env), Outcome(old(game.memory), old(game.writes), None), Targets(loaded), old(ValuesOf(sources)))
  {
    ghost var rows := ValuesOf(sources);
    ghost var start := Outcome(game.memory, game.writes, None);
    if |loaded| == 0 {
      return None;
    }
    if |sources| == 0 {
      loaded[0].DeserializeFromBo3(env, game);
      return Some(IndexOutOfRange);
    }
    error := OverrideEach(env, game, loaded, sources, Jobs(Targets(loaded), rows));
  }

  /** The row loop of OverrideAliases for one alias name: record i of the loaded list takes the
      properties of source SourceIndex(i, |sources|), and the first raise ends the loop. */
  method OverrideEach(env: Numerics, game: Process, loaded: seq<SoundAlias>, sources: seq<SoundAlias>, ghost jobs: seq<Job>)
      returns (error: Option<Error>)
    requires |sources| > 0 && |jobs| == |loaded|
    requires forall j :: 0 <= j < |sources| ==> sources[j] !in loaded
    requires forall i :: 0 <= i < |loaded| ==>
      jobs[i] == Job(Target(loaded[i].address, loaded[i].tables), sources[SourceIndex(i, |sources|)].values)
    modifies game, set i | 0 <= i < |loaded| :: loaded[i]
    ensures Outcome(game.memory, game.writes, error)
         == RunFrom(Serialize(env), Outcome(old(game.memory), old(game.writes), None), jobs, 0)
  {
    ghost var rows := ValuesOf(sources);
    ghost var start := Outcome(game.memory, game.writes, None);
    var i := 0;
    while i < |loaded|
      invariant 0 <= i <= |loaded|
      invariant forall j :: 0 <= j < |sources| ==> sources[j].values == rows[j]
      invariant RunFrom(Serialize(env), start, jobs, 0) == RunFrom(Serialize(env), Outcome(game.memory, game.writes, None), jobs, i)
    {
      var source := sources[if i < |sources| then i else |sources| - 1];
      error := OverrideRecord(env, game, loaded[i], source);
      if error.Some? {
        return;
      }
      i := i + 1;
    }
    error := None;
  }

  /** One pass of OverrideAliases' outer loop: the banks are searched in order for the name,
      and the live list of the first that has it is overridden from the source list. */
  method OverrideFirstMatch(env: Numerics, game: Process, banks: seq<SoundBank>, name: string, sources: seq<SoundAlias>)
      returns (error: Option<Error>)
    requires forall j :: 0 <= j < |sources| ==> sources[j] !in LiveRecords(banks)
    modifies game, LiveRecords(banks)
    ensures Outcome(game.memory, game.writes, error)
         == OverrideName(Serialize(env), Outcome(old(game.memory), old(game.writes), None), old(LiveView(banks)), name, old(ValuesOf(sources)))
  {
    ghost var view := LiveView(banks);
    var b := 0;
    while b < |banks|
      invariant 0 <= b <= |banks| && FirstMatch(view, name, b) == FirstMatch(view, name, 0)
    {
      if name in banks[b].aliases {
        var loaded := banks[b].aliases[name];
        assert forall i :: 0 <= i < |loaded| ==> loaded[i] in LiveRecords(banks);
        error := OverrideRecords(env, game, loaded, sources);
        return;
      }
      b := b + 1;
    }
    error := None;
  }

  /** One pass of that loop: DeserializeFromBo3, CopyFrom the source row, SerializeToBo3. */
  method OverrideRecord(env: Numerics, game: Process, alias: SoundAlias, source: SoundAlias) returns (error: Option<Error>)
    requires alias != source
    modifies game, alias
    ensures Outcome(game.memory, game.writes, error)
         == RunJob(Serialize(env), Outcome(old(game.memory), old(game.writes), None), Job(Target(alias.address, alias.tables), old(source.values)))
  {
    FieldsWellPlaced();
    alias.DeserializeFromBo3(env, game);
    ghost var window := alias.buffer[..];
    alias.CopyFrom(source);
    error := alias.SerializeToBo3(env, game);
    assert Serialize(env)(alias.tables, alias.values, window) == EncodeFrom(env, alias.tables, alias.values, window, 0);
  }

  /** One row of a file: the record it becomes, filled from the given templates, filed under
      its name when it has one. */
  method FileRow(env: Numerics, bank: SoundBank, line: seq<string>, header: seq<string>, templates: map<string, seq<SoundAlias>>, ghost d: Contents)
    requires bank.Valid() && bank.Holds(d)
    modifies bank
    ensures bank.Valid() && bank.Holds(AddRow(env, d, line, header, old(Firsts(templates))))
    ensures Firsts(templates) == old(Firsts(templates))
  {
    var alias := new SoundAlias.FromCsv(env, line, header, bank.tables, templates);
    var name := KeptName(alias.values);
    if name.Some? {
      bank.AddRecord(name.value, alias, d);
    }
    FirstsUnchanged(templates);
  }

  /** A data row of a template file: the templates it resolves against are the first records
      the bank holds so far. */
  method FileTemplateRow(env: Numerics, bank: SoundBank, rows: seq<seq<string>>, k: nat, ghost d: Contents) returns (ghost next: Contents)
    requires bank.Valid() && bank.Holds(d) && 1 <= k < |rows|
    modifies bank
    ensures bank.Valid() && bank.Holds(next)
    ensures TemplateRows(env, next, rows, k + 1) == TemplateRows(env, d, rows, k)
  {
    next := AddRow(env, d, rows[k], rows[0], FirstRecords(d.records));
    bank.HoldsSnapshot(d);
    FirstsOfRecords(bank.aliases);
    FileRow(env, bank, rows[k], rows[0], bank.aliases, d);
  }

  /** A data row of an alias file: the templates it resolves against are those of the
      template bank, which the row leaves as they are. */
  method FileAliasRow(env: Numerics, bank: SoundBank, rows: seq<seq<string>>, k: nat, templates: map<string, seq<SoundAlias>>, ghost d: Contents) returns (ghost next: Contents)
    requires bank.Valid() && bank.Holds(d) && 1 <= k < |rows|
    modifies bank
    ensures bank.Valid() && bank.Holds(next)
    ensures AliasRows(env, next, rows, k + 1, old(Firsts(templates))) == AliasRows(env, d, rows, k, old(Firsts(templates)))
    ensures Firsts(templates) == old(Firsts(templates))
  {
    next := AddRow(env, d, rows[k], rows[0], Firsts(templates));
    FileRow(env, bank, rows[k], rows[0], templates, d);
  }

  /** Nothing the override pass sees of the loaded banks changes while the banks themselves
      do not: their records are overridden, not replaced. */
  twostate lemma BanksUnchanged(banks: seq<SoundBank>)
    requires forall b :: 0 <= b < |banks| ==> unchanged(banks[b])
    ensures LiveView(banks) == old(LiveView(banks)) && LiveRecords(banks) == old(LiveRecords(banks))
  {
  }

  /** The records of the loaded banks. */
  function LiveRecords(banks: seq<SoundBank>): set<SoundAlias>
    reads set b | b in banks
  {
    set b, n, i | 0 <= b < |banks| && n in banks[b].aliases && 0 <= i < |banks[b].aliases[n]| :: banks[b].aliases[n][i]
  }

  /** No record of the source bank is a record of a loaded bank: the one kind is read from
      CSV files, the other scanned from the game. */
  ghost predicate Disjoint(banks: seq<SoundBank>, source: SoundBank)
    reads source, set b | b in banks
  {
    forall m, j :: m in source.aliases && 0 <= j < |source.aliases[m]| ==> source.aliases[m][j] !in LiveRecords(banks)
  }

  /** One template file: the first row is the header; every later row becomes a record
      filled from the template bank as it stands, filed under its name when it has one. */
  method ParseTemplateFile(env: Numerics, bank: SoundBank, rows: seq<seq<string>>, ghost c: Contents)
    requires bank.Valid() && bank.Holds(c)
    modifies bank
    ensures bank.Valid() && bank.Holds(TemplateRows(env, c, rows, 1))
  {
    var header: Option<seq<string>> := None;
    ghost var d := c;
    var k := 0;
    while k < |rows|
      invariant 0 <= k <= |rows| && bank.Valid() && bank.Holds(d)
      invariant header.Some? <==> k > 0
      invariant header.Some? ==> header.value == rows[0] && TemplateRows(env, d, rows, k) == TemplateRows(env, c, rows, 1)
      invariant header.None? ==> d == c
    {
      if header.None? {
        header := Some(rows[k]);
      } else {
        d := FileTemplateRow(env, bank, rows, k, d);
      }
      k := k + 1;
    }
  }

  /** One alias file: the first row is the header; every later row becomes a record filled
      from the given templates, filed under its name when it has one. */
  method ParseAliasFile(env: Numerics, bank: SoundBank, aliasFileNames: seq<string>, file: CsvFile, templates: map<string, seq<SoundAlias>>, ghost c: Contents)
    requires bank.Valid() && bank.Holds(c)
    modifies bank
    ensures bank.Valid() && bank.Holds(AliasFile(env, c, aliasFileNames, old(Firsts(templates)), file))
    ensures Firsts(templates) == old(Firsts(templates))
  {
    ghost var firsts := Firsts(templates);
    if !IsAliasFileValid(aliasFileNames, file.stem) {
      return;
    }
    var rows := file.rows;
    var header: Option<seq<string>> := None;
    ghost var d := c;
    var k := 0;
    while k < |rows|
      invariant 0 <= k <= |rows| && bank.Valid() && bank.Holds(d) && Firsts(templates) == firsts
      invariant header.Some? <==> k > 0
      invariant header.Some? ==> header.value == rows[0] && AliasRows(env, d, rows, k, firsts) == AliasRows(env, c, rows, 1, firsts)
      invariant header.None? ==> d == c
    {
      if header.None? {
        header := Some(rows[k]);
      } else {
        d := FileAliasRow(env, bank, rows, k, templates, d);
      }
      k := k + 1;
    }
  }

  /** Instance: the process being patched, the banks read out of it, and the template and
      source banks read from the sound folders. */
  class Instance {
    /** BlackOpsIII: the game process. */
    const game: Process
    /** The Arrays and HashedStrings tables every bank is built with. */
    const tables: Tables
    /** AliasFileNames: the alias files to read, by lower-cased name; empty means all. */
    var aliasFileNames: seq<string>
    /** Banks: the sound banks loaded in the game, in pool order. */
    var banks: seq<SoundBank>
    /** SourceBank: the aliases read from the aliases folder. */
    var sourceBank: SoundBank
    /** TemplateBank: the aliases read from the templates folder. */
    var templateBank: SoundBank

    /** A patcher attached to the game, with no alias file named, no bank read, and empty
        template and source banks. */
    constructor (game: Process)
      ensures this.game == game && this.tables == BuiltIn
      ensures aliasFileNames == [] && banks == []
      ensures fresh(sourceBank) && sourceBank.Valid() && sourceBank.Snapshot() == Empty
      ensures fresh(templateBank) && templateBank.Valid() && templateBank.Snapshot() == Empty
    {
      this.game := game;
      this.tables := BuiltIn;
      aliasFileNames := [];
      banks := [];
      sourceBank := new SoundBank.Empty("Source", BuiltIn);
      templateBank := new SoundBank.Empty("Template", BuiltIn);
    }

    /** Program.Main, for each argument: the file's name, lower-cased, joins the list. */
    method AddAliasFileName(fileName: string)
      modifies this
      ensures aliasFileNames == old(aliasFileNames) + [ToLower(fileName)]
      ensures banks == old(banks) && sourceBank == old(sourceBank) && templateBank == old(templateBank)
    {
      aliasFileNames := aliasFileNames + [ToLower(fileName)];
    }

    /** Initialize, for each sound bank asset in the pool: a header with no alias pointer and
        no aliases is skipped; any other becomes a bank scanned from the game's memory. */
    method AddLoadedBank(name: string, aliasesPointer: int, aliasCount: int, entries: seq<Entry>)
      modifies this
      ensures aliasesPointer == 0 && aliasCount == 0 ==> banks == old(banks)
      ensures !(aliasesPointer == 0 && aliasCount == 0) ==>
        |banks| == |old(banks)| + 1 && banks[..|old(banks)|] == old(banks)
        && fresh(banks[|old(banks)|]) && banks[|old(banks)|].Valid()
        && banks[|old(banks)|].name == name && banks[|old(banks)|].tables == tables
        && banks[|old(banks)|].order == Names(entries) && Scanned(entries, banks[|old(banks)|].aliases)
      ensures aliasFileNames == old(aliasFileNames) && sourceBank == old(sourceBank) && templateBank == old(templateBank)
    {
      if aliasesPointer == 0 && aliasCount == 0 {
        return;
      }
      var bank := new SoundBank.Live(name, tables, entries);
      banks := banks + [bank];
    }

    /** ParseTemplates: a new template bank, filled from every template file in turn. */
    method ParseTemplates(env: Numerics, files: seq<CsvFile>)
      modifies this
      ensures fresh(templateBank) && templateBank.Valid() && templateBank.tables == tables
      ensures templateBank.Snapshot() == TemplateFiles(env, Empty, files, 0)
      ensures aliasFileNames == old(aliasFileNames) && banks == old(banks) && sourceBank == old(sourceBank)
    {
      templateBank := new SoundBank.Empty("Template", tables);
      ghost var c := Empty;
      var f := 0;
      while f < |files|
        invariant 0 <= f <= |files|
        invariant fresh(templateBank) && templateBank.Valid() && templateBank.tables == tables && templateBank.Holds(c)
        invariant TemplateFiles(env, c, files, f) == TemplateFiles(env, Empty, files, 0)
        invariant aliasFileNames == old(aliasFileNames) && banks == old(banks) && sourceBank == old(sourceBank)
      {
        ParseTemplateFile(env, templateBank, files[f].rows, c);
        c := TemplateRows(env, c, files[f].rows, 1);
        f := f + 1;
      }
      templateBank.HoldsSnapshot(c);
    }

    /** ParseAliases: a new source bank, filled from the alias files the allow-list lets
        through, each row filled from the first records of the template bank. */
    method ParseAliases(env: Numerics, files: seq<CsvFile>)
      modifies this
      ensures fresh(sourceBank) && sourceBank.Valid() && sourceBank.tables == tables
      ensures sourceBank.Snapshot() == AliasFiles(env, Empty, aliasFileNames, old(Firsts(templateBank.aliases)), files, 0)
      ensures aliasFileNames == old(aliasFileNames) && banks == old(banks) && templateBank == old(templateBank)
    {
      var templates := templateBank.aliases;
      ghost var firsts := Firsts(templates);
      sourceBank := new SoundBank.Empty("Source", tables);
      var bank := sourceBank;
      ghost var c := Empty;
      var f := 0;
      while f < |files|
        invariant 0 <= f <= |files| && Firsts(templates) == firsts
        invariant fresh(bank) && bank.Valid() && bank.Holds(c)
        invariant AliasFiles(env, c, aliasFileNames, firsts, files, f) == AliasFiles(env, Empty, aliasFileNames, firsts, files, 0)
        invariant sourceBank == bank && aliasFileNames == old(aliasFileNames) && banks == old(banks) && templateBank == old(templateBank)
      {
        ParseAliasFile(env, bank, aliasFileNames, files[f], templates, c);
        c := AliasFile(env, c, aliasFileNames, firsts, files[f]);
        f := f + 1;
      }
      bank.HoldsSnapshot(c);
    }

    /** OverrideAliases: for every name of the source bank, in order, the live list under that
        name in the first loaded bank that has it is overridden from the source list; a name
        no bank has is passed over. An exception ends the pass and is returned. */
    method OverrideAliases(env: Numerics) returns (error: Option<Error>)
      requires sourceBank.Valid() && Disjoint(banks, sourceBank)
      modifies game, LiveRecords(banks)
      ensures Outcome(game.memory, game.writes, error)
           == OverrideFrom(Serialize(env), Outcome(old(game.memory), old(game.writes), None),
                           old(LiveView(banks)), sourceBank.order, old(Records(sourceBank.aliases)), 0)
    {
      ghost var ser := Serialize(env);
      ghost var view := LiveView(banks);
      ghost var live := LiveRecords(banks);
      ghost var records := Records(sourceBank.aliases);
      ghost var start := Outcome(game.memory, game.writes, None);
      var names := sourceBank.order;
      var k := 0;
      while k < |names|
        invariant 0 <= k <= |names|
        invariant LiveView(banks) == view && LiveRecords(banks) == live && Records(sourceBank.aliases) == records
        invariant OverrideFrom(ser, start, view, names, records, 0) == OverrideFrom(ser, Outcome(game.memory, game.writes, None), view, names, records, k)
      {
        var name := names[k];
        error := OverrideFirstMatch(env, game, banks, name, sourceBank.aliases[name]);
        BanksUnchanged(banks);
        RecordsUnchanged(sourceBank.aliases);
        if error.Some? {
          return;
        }
        k := k + 1;
      }
      error := None;
    }
  }
}
