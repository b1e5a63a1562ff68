/** The game process as the patcher sees it: an address space of bytes it reads and writes.
    ForeignProcess.ReadBytes and WriteBytes act on it; ReadNullTerminatedString is a
    collaborator the model does not look into. Every write is also kept in a ghost log, so
    that contracts can say which writes an operation performed and in what order. */
module Foreign {
  import opened Common

  /** One WriteBytes call: the bytes stored at the address. */
  datatype Write = Write(address: int, data: seq<byte>)

  /** The n bytes of memory starting at the address. */
  function Window(memory: int -> byte, address: int, n: nat): (r: seq<byte>)
    ensures |r| == n && forall k :: 0 <= k < n ==> r[k] == memory(address + k)
  {
    seq(n, k requires 0 <= k < n => memory(address + k))
  }

  /** Memory after the data is stored at the address. */
  function Stored(memory: int -> byte, address: int, data: seq<byte>): (r: int -> byte)
    ensures forall k :: r(k) == if address <= k < address + |data| then data[k - address] else memory(k)
  {
    k => if address <= k < address + |data| then data[k - address] else memory(k)
  }

  /** Reading back bytes just stored gives them back. */
  lemma WindowOfStored(memory: int -> byte, address: int, data: seq<byte>)
    ensures Window(Stored(memory, address, data), address, |data|) == data
  {
  }

  /** Storing bytes leaves every window that does not overlap them as it was. */
  lemma WindowApart(memory: int -> byte, address: int, data: seq<byte>, other: int, n: nat)
    requires other + n <= address || address + |data| <= other
    ensures Window(Stored(memory, address, data), other, n) == Window(memory, other, n)
  {
  }

  class Process {
    /** What the process holds at every address. */
    var memory: int -> byte
    /** The writes made so far, oldest first. */
    ghost var writes: seq<Write>
    /** ReadNullTerminatedString: the text at a pointer. */
    const readText: int -> string

    constructor (memory: int -> byte, readText: int -> string)
      ensures this.memory == memory && this.readText == readText && writes == []
    {
      this.memory := memory;
      this.readText := readText;
      writes := [];
    }

    /** ForeignProcess.ReadBytes. */
    method ReadBytes(address: int, count: nat) returns (r: array<byte>)
      ensures fresh(r) && r[..] == Window(memory, address, count)
    {
      r := new byte[count](k requires 0 <= k < count reads this => memory(address + k));
    }

    /** ForeignProcess.WriteBytes: stores the bytes and logs the write. */
    method WriteBytes(address: int, data: seq<byte>)
      modifies this
      ensures memory == Stored(old(memory), address, data)
      ensures writes == old(writes) + [Write(address, data)]
    {
      memory := Stored(memory, address, data);
      writes := writes + [Write(address, data)];
    }
  }
}
