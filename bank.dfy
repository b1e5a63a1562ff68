/** SoundBank: a name, and the records under each alias name, in lists kept in the order the
    names were first added (the enumeration order of its Dictionary, which never loses a key).
    A live bank is built from the alias array the game holds; the source and template banks
    are filled from CSV rows. Every bank carries the same built-in lookup tables. */
module Bank {
  import opened Common
  import opened Schema
  import opened Lookup
  import opened Alias

  /** One element of the game's alias array, as the live scan reads it: the alias name behind
      NamePointer, EntryCount and EntiresPointer. */
  datatype Entry = Entry(name: string, count: int, entries: int)

  /** The addresses of an entry's records: entries + i * 216 for i ascending, none when the
      count is not positive. */
  function EntryAddresses(e: Entry): (r: seq<int>)
    ensures |r| == if e.count > 0 then e.count else 0
    ensures forall i :: 0 <= i < |r| ==> r[i] == e.entries + i * SizeOfStructure
  {
    if e.count > 0 then seq(e.count, i => e.entries + i * SizeOfStructure) else []
  }

  lemma EntryAddressesStep(e: Entry, i: nat)
    requires i < e.count
    ensures EntryAddresses(e)[..i + 1] == EntryAddresses(e)[..i] + [e.entries + i * SizeOfStructure]
  {
  }

  /** The addresses the live scan lists under a name: those of every entry of that name, entry
      by entry in array order. */
  function Addresses(entries: seq<Entry>, name: string): seq<int> {
    if entries == [] then []
    else
      var last := entries[|entries| - 1];
      Addresses(entries[..|entries| - 1], name) + (if last.name == name then EntryAddresses(last) else [])
  }

  /** The alias names of the array, each once, in order of first appearance. */
  function Names(entries: seq<Entry>): (r: seq<string>)
    ensures Distinct(r)
    ensures forall n :: n in r <==> exists k :: 0 <= k < |entries| && entries[k].name == n
  {
    if entries == [] then []
    else
      var prev := entries[..|entries| - 1];
      var last := entries[|entries| - 1].name;
      assert forall k :: 0 <= k < |prev| ==> prev[k] == entries[k];
      if last in Names(prev) then Names(prev) else Names(prev) + [last]
  }

  /** A name that appears in two parts of the array collects the records of both, those of
      the first part first. */
  lemma {:induction false} AddressesAppend(a: seq<Entry>, b: seq<Entry>, name: string)
    ensures Addresses(a + b, name) == Addresses(a, name) + Addresses(b, name)
    decreases |b|
  {
    if b == [] {
      assert a + b == a;
    } else {
      var b' := b[..|b| - 1];
      assert (a + b)[..|a + b| - 1] == a + b';
      assert (a + b)[|a + b| - 1] == b[|b| - 1];
      AddressesAppend(a, b', name);
    }
  }

  /** A name with a single entry lists exactly that entry's records. */
  lemma {:induction false} AddressesOfOne(entries: seq<Entry>, k: nat)
    requires k < |entries|
    requires forall j :: 0 <= j < |entries| && j != k ==> entries[j].name != entries[k].name
    ensures Addresses(entries, entries[k].name) == EntryAddresses(entries[k])
  {
    var name := entries[k].name;
    assert entries == entries[..k] + [entries[k]] + entries[k + 1..];
    AddressesAppend(entries[..k] + [entries[k]], entries[k + 1..], name);
    AddressesAppend(entries[..k], [entries[k]], name);
    AddressesAbsent(entries[..k], name);
    AddressesAbsent(entries[k + 1..], name);
    assert [entries[k]][..0] == [];
  }

  /** A name the array does not hold lists nothing. */
  lemma {:induction false} AddressesAbsent(entries: seq<Entry>, name: string)
    requires forall j :: 0 <= j < |entries| ==> entries[j].name != name
    ensures Addresses(entries, name) == []
  {
    if entries != [] {
      AddressesAbsent(entries[..|entries| - 1], name);
    }
  }

  /** The scan's names grow by one element at a time: a new name goes last. */
  lemma NamesStep(entries: seq<Entry>, k: nat)
    requires k < |entries|
    ensures Names(entries[..k + 1]) == if entries[k].name in Names(entries[..k]) then Names(entries[..k]) else Names(entries[..k]) + [entries[k].name]
  {
    assert entries[..k + 1][..k] == entries[..k] && entries[..k + 1][k] == entries[k];
  }

  /** The scan's addresses for a name grow by the records of one more element of that name. */
  lemma AddressesStep(entries: seq<Entry>, k: nat, n: string)
    requires k < |entries|
    ensures Addresses(entries[..k + 1], n) == (if entries[k].name == n then Addresses(entries[..k], n) + EntryAddresses(entries[k]) else Addresses(entries[..k], n))
  {
    assert entries[..k + 1][..k] == entries[..k] && entries[..k + 1][k] == entries[k];
    if entries[k].name != n {
      assert Addresses(entries[..k], n) + [] == Addresses(entries[..k], n);
    }
  }

  /** The addresses of a list of records. */
  function AddressesOf(list: seq<SoundAlias>): (r: seq<int>)
    ensures |r| == |list| && forall i :: 0 <= i < |list| ==> r[i] == list[i].address
  {
    seq(|list|, i requires 0 <= i < |list| => list[i].address)
  }

  lemma AddressesOfSnoc(list: seq<SoundAlias>, a: SoundAlias)
    ensures AddressesOf(list + [a]) == AddressesOf(list) + [a.address]
  {
  }

  lemma AddressesOfAppend(list: seq<SoundAlias>, more: seq<SoundAlias>)
    ensures AddressesOf(list + more) == AddressesOf(list) + AddressesOf(more)
  {
  }

  /** The list under a name, or none. */
  function Listed(aliases: map<string, seq<SoundAlias>>, name: string): seq<SoundAlias> {
    if name in aliases then aliases[name] else []
  }

  /** Every name lists the records at exactly the addresses the scan of the entries gives it. */
  ghost predicate Scanned(entries: seq<Entry>, aliases: map<string, seq<SoundAlias>>) {
    forall n :: AddressesOf(Listed(aliases, n)) == Addresses(entries, n)
  }

  /** One more entry scanned: its name's list grows by the entry's records, no other list changes. */
  lemma ScannedStep(entries: seq<Entry>, k: nat, before: map<string, seq<SoundAlias>>, after: map<string, seq<SoundAlias>>)
    requires k < |entries| && Scanned(entries[..k], before)
    requires entries[k].name in after && after == before[entries[k].name := after[entries[k].name]]
    requires AddressesOf(after[entries[k].name]) == AddressesOf(Listed(before, entries[k].name)) + EntryAddresses(entries[k])
    ensures Scanned(entries[..k + 1], after)
  {
    forall n
      ensures AddressesOf(Listed(after, n)) == Addresses(entries[..k + 1], n)
    {
      AddressesStep(entries, k, n);
      if n != entries[k].name {
        assert Listed(after, n) == Listed(before, n);
      }
    }
  }

  /** Records bound to a bank: every one uses the bank's tables. */
  predicate BoundTo(list: seq<SoundAlias>, tables: Tables) {
    forall i :: 0 <= i < |list| ==> list[i].tables == tables
  }

  /** The properties of a list of records. */
  function ValuesOf(list: seq<SoundAlias>): (r: seq<seq<Value>>)
    reads set a | a in list
    ensures |r| == |list| && forall i :: 0 <= i < |list| ==> r[i] == list[i].values
  {
    seq(|list|, i requires 0 <= i < |list| reads set a | a in list => list[i].values)
  }

  /** The properties of every record of a bank, by name. */
  function Records(aliases: map<string, seq<SoundAlias>>): (r: map<string, seq<seq<Value>>>)
    reads set n, a | n in aliases && a in aliases[n] :: a
    ensures r.Keys == aliases.Keys
    ensures forall n :: n in aliases ==> r[n] == ValuesOf(aliases[n])
  {
    map n | n in aliases :: ValuesOf(aliases[n])
  }

  /** The properties of a bank's records are as they were while none of the records has
      changed. */
  twostate lemma RecordsUnchanged(aliases: map<string, seq<SoundAlias>>)
    requires forall n, i :: n in aliases && 0 <= i < |aliases[n]| ==> unchanged(aliases[n][i])
    ensures Records(aliases) == old(Records(aliases))
  {
    forall n | n in aliases
      ensures Records(aliases)[n] == old(Records(aliases))[n]
    {
      assert ValuesOf(aliases[n]) == old(ValuesOf(aliases[n]));
    }
  }

  /** The records of a bank as values: its names in order and the properties under each. */
  datatype Contents = Contents(order: seq<string>, records: map<string, seq<seq<Value>>>)

  const Empty: Contents := Contents([], map[])

  /** Contents after GetOrAddAlias(name).Add(record). */
  function Added(c: Contents, name: string, record: seq<Value>): (r: Contents)
    ensures name in r.records && r.records.Keys == c.records.Keys + {name}
    ensures r.records[name] == (if name in c.records then c.records[name] else []) + [record]
    ensures forall n :: n in c.records && n != name ==> r.records[n] == c.records[n]
    ensures r.order == if name in c.records then c.order else c.order + [name]
  {
    var list := if name in c.records then c.records[name] else [];
    Contents(if name in c.records then c.order else c.order + [name], c.records[name := list + [record]])
  }

  /** The first record under each name, where there is one. */
  function FirstRecords(records: map<string, seq<seq<Value>>>): (r: map<string, seq<Value>>)
    ensures forall n :: n in r <==> n in records && records[n] != []
    ensures forall n :: n in r ==> r[n] == records[n][0]
  {
    map n | n in records && records[n] != [] :: records[n][0]
  }

  /** Adding a record under a name leaves the first record of every list as it was, and
      starts a new list with it. */
  lemma FirstRecordsAdded(c: Contents, name: string, record: seq<Value>)
    ensures FirstRecords(Added(c, name, record).records)
         == if name in c.records && c.records[name] != [] then FirstRecords(c.records)
            else FirstRecords(c.records)[name := record]
  {
  }

  /** The first record under each name, read off the records themselves or off their
      properties, is the same. */
  lemma FirstsOfRecords(aliases: map<string, seq<SoundAlias>>)
    ensures Firsts(aliases) == FirstRecords(Records(aliases))
  {
  }

  /** A map of lists of records holds the properties `records`: the same names, lists of
      the same lengths, and in each place a record with those properties. */
  lemma RecordsAre(aliases: map<string, seq<SoundAlias>>, records: map<string, seq<seq<Value>>>)
    requires aliases.Keys == records.Keys
    requires forall n :: n in aliases ==> |aliases[n]| == |records[n]|
    requires forall n, i :: n in aliases && 0 <= i < |aliases[n]| ==> aliases[n][i].values == records[n][i]
    ensures Records(aliases) == records
  {
    forall n | n in aliases
      ensures Records(aliases)[n] == records[n]
    {
      assert ValuesOf(aliases[n]) == records[n];
    }
  }

  /** The lists of records after GetOrAddAlias(name).Add(alias) hold the properties they
      held before, with the record's properties added under the name. */
  lemma HoldsAdded(before: map<string, seq<SoundAlias>>, c: Contents, name: string, alias: SoundAlias)
    requires before.Keys == c.records.Keys
    requires forall n :: n in before ==> |before[n]| == |c.records[n]|
    requires forall n, i :: n in before && 0 <= i < |before[n]| ==> before[n][i].values == c.records[n][i]
    ensures var after := before[name := (if name in before then before[name] else []) + [alias]];
      var r := Added(c, name, alias.values);
      && after.Keys == r.records.Keys
      && (forall n :: n in after ==> |after[n]| == |r.records[n]|)
      && (forall n, i :: n in after && 0 <= i < |after[n]| ==> after[n][i].values == r.records[n][i])
  {
    var after: map<string, seq<SoundAlias>> := before[name := (if name in before then before[name] else []) + [alias]];
    var r := Added(c, name, alias.values);
    forall n: string, i: int | n in after && 0 <= i < |after[n]|
      ensures after[n][i].values == r.records[n][i]
    {
      if n == name && i == |after[n]| - 1 {
        assert after[n][i] == alias;
      } else if n == name {
        assert after[n][i] == before[n][i];
      }
    }
  }

  class SoundBank {
    const name: string
    /** Arrays and HashedStrings: every bank is built with the same literal tables (Lookup.BuiltIn). */
    const tables: Tables
    /** Aliases: the records under each alias name. */
    var aliases: map<string, seq<SoundAlias>>
    /** The names of Aliases in the order they were added. */
    var order: seq<string>

    ghost predicate Valid()
      reads this
    {
      Distinct(order) && forall n :: n in aliases <==> n in order
    }

    /** SoundBank(name): an empty bank. */
    constructor Empty(name: string, tables: Tables)
      ensures Valid() && this.name == name && this.tables == tables
      ensures aliases == map[] && order == []
    {
      this.name := name;
      this.tables := tables;
      aliases := map[];
      order := [];
    }

    /** GetOrAddAlias: the list under the name; a name not yet present gets a new empty list,
        added last. No other name changes. */
    method GetOrAddAlias(name: string) returns (list: seq<SoundAlias>)
      requires Valid()
      modifies this
      ensures Valid()
      ensures name in old(aliases) ==> list == old(aliases)[name] && aliases == old(aliases) && order == old(order)
      ensures name !in old(aliases) ==> list == [] && aliases == old(aliases)[name := []] && order == old(order) + [name]
    {
      if name in aliases {
        list := aliases[name];
      } else {
        list := [];
        aliases := aliases[name := list];
        order := order + [name];
      }
    }

    /** The bank's names in order and the properties of its records. */
    ghost function Snapshot(): Contents
      reads this, set n, a | n in aliases && a in aliases[n] :: a
    {
      Contents(order, Records(aliases))
    }

    /** GetOrAddAlias(name).Add(alias): the record goes last in the name's list. */
    method Add(name: string, alias: SoundAlias)
      requires Valid()
      modifies this
      ensures Valid()
      ensures aliases == old(aliases)[name := (if name in old(aliases) then old(aliases)[name] else []) + [alias]]
      ensures order == if name in old(aliases) then old(order) else old(order) + [name]
    {
      var list := GetOrAddAlias(name);
      Append(name, alias);
    }

    /** The bank holds the contents c: the same names in the same order, and under each name
        records with c's properties, in c's order. */
    ghost predicate Holds(c: Contents)
      reads this, set n, i | n in aliases && 0 <= i < |aliases[n]| :: aliases[n][i]
    {
      && order == c.order && aliases.Keys == c.records.Keys
      && (forall n :: n in aliases ==> |aliases[n]| == |c.records[n]|)
      && (forall n, i :: n in aliases && 0 <= i < |aliases[n]| ==> aliases[n][i].values == c.records[n][i])
    }

    /** A bank that holds c shows c. */
    lemma HoldsSnapshot(c: Contents)
      requires Holds(c)
      ensures Snapshot() == c
    {
      RecordsAre(aliases, c.records);
    }

    /** GetOrAddAlias(name).Add(alias) on a bank that holds c: it then holds c with the
        record's properties added under the name. */
    method AddRecord(name: string, alias: SoundAlias, ghost c: Contents)
      requires Valid() && Holds(c)
      modifies this
      ensures Valid() && Holds(Added(c, name, alias.values))
      ensures aliases == old(aliases)[name := (if name in old(aliases) then old(aliases)[name] else []) + [alias]]
    {
      ghost var before: map<string, seq<SoundAlias>> := aliases;
      assert forall n: string, i: int :: n in before && 0 <= i < |before[n]| ==> before[n][i].values == c.records[n][i];
      Add(name, alias);
      assert forall n: string, i: int :: n in before && 0 <= i < |before[n]| ==> before[n][i].values == c.records[n][i];
      HoldsAdded(before, c, name, alias);
    }

    /** List.Add on the list held under a name: the record goes last in it. */
    method Append(name: string, alias: SoundAlias)
      requires Valid() && name in aliases
      modifies this
      ensures Valid() && order == old(order)
      ensures aliases == old(aliases)[name := old(aliases)[name] + [alias]]
    {
      aliases := aliases[name := aliases[name] + [alias]];
    }

    /** One pass of the live scan's outer loop: GetOrAddAlias(e.name), then one new record
        per entry at EntiresPointer + i * 216, i ascending, added to that list. */
    method AddEntry(e: Entry)
      requires Valid()
      modifies this
      ensures Valid()
      ensures order == if e.name in old(aliases) then old(order) else old(order) + [e.name]
      ensures e.name in aliases && aliases == old(aliases)[e.name := aliases[e.name]]
      ensures AddressesOf(aliases[e.name]) == AddressesOf(Listed(old(aliases), e.name)) + EntryAddresses(e)
      ensures BoundTo(Listed(old(aliases), e.name), tables) ==> BoundTo(aliases[e.name], tables)
    {
      var list := GetOrAddAlias(e.name);
      ghost var after := aliases;
      ghost var afterOrder := order;
      ghost var added: seq<SoundAlias> := [];
      assert list + added == list;
      var i := 0;
      while i < e.count
        invariant 0 <= i <= |EntryAddresses(e)| && |added| == i && Valid() && order == afterOrder
        invariant e.name in aliases && aliases == after[e.name := aliases[e.name]] && aliases[e.name] == list + added
        invariant forall j :: 0 <= j < i ==> added[j].address == e.entries + j * SizeOfStructure && added[j].tables == tables
      {
        var alias := new SoundAlias.Bound(e.entries + i * SizeOfStructure, tables);
        Append(e.name, alias);
        assert aliases[e.name] == list + (added + [alias]);
        added := added + [alias];
        i := i + 1;
      }
      AddressesOfAppend(list, added);
      assert AddressesOf(added) == EntryAddresses(e);
    }

    /** SoundBank(name, header): for each element of the game's alias array in order, the list
        under its name gains EntryCount new records at EntiresPointer + i * 216, i ascending.
        A name that appears twice collects both elements' records in one list. */
    constructor Live(name: string, tables: Tables, entries: seq<Entry>)
      ensures Valid() && this.name == name && this.tables == tables
      ensures order == Names(entries)
      ensures Scanned(entries, aliases)
      ensures forall n :: n in aliases ==> BoundTo(aliases[n], tables)
    {
      this.name := name;
      this.tables := tables;
      aliases := map[];
      order := [];
      new;
      var k := 0;
      while k < |entries|
        invariant 0 <= k <= |entries| && Valid()
        invariant order == Names(entries[..k])
        invariant Scanned(entries[..k], aliases)
        invariant forall n :: n in aliases ==> BoundTo(aliases[n], tables)
      {
        var e := entries[k];
        NamesStep(entries, k);
        ghost var before := aliases;
        assert BoundTo(Listed(before, e.name), tables);
        AddEntry(e);
        ScannedStep(entries, k, before, aliases);
        forall n | n in aliases
          ensures BoundTo(aliases[n], tables)
        {
          if n != e.name {
            assert aliases[n] == before[n];
          }
        }
        k := k + 1;
      }
      assert entries[..|entries|] == entries;
    }
  }
}
