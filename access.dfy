/** The access layer: register reads and writes, resuming the target, and
    word-by-word memory reads and writes, each a fixed sequence of word
    exchanges on the link. */
module Access {
  import opened Bits
  import opened Wire

  /** Read system register; the register index goes in the low six bits. */
  const CmdRsreg: nat := 0x6000
  /** Write system register; the register index goes in the low six bits. */
  const CmdWsreg: nat := 0x7000
  /** Resume execution. */
  const CmdGo: nat := 0xA000
  /** Arm a memory read; the next exchange carries the address. */
  const CmdReadMem: nat := 0x8000
  /** Arm a memory write; the next exchange carries the data word. */
  const CmdWriteMem: nat := 0x9000

  type Byte = x: int | 0 <= x < 256

  // ---------------------------------------------------------------------
  // Opcodes

  /** `base | (reg & 0x3F)`: the register index modulo 64 (Python's `&` on
      a negative index is two's complement, which is the same) placed in the
      six low bits of `base`, which must be clear. */
  function Opcode(base: nat, reg: int): (op: nat)
    requires base % 64 == 0
    ensures op == base + reg % 64
  {
    Pow2Values();
    AndLowMask(reg, 6);
    OrDisjoint(base, reg % 64, 6);
    BitOr(base, BitAnd(reg, 0x3F))
  }

  /** A register opcode stays within the 64-entry block of its base, and
      registers 0 to 63 get 64 different opcodes. */
  lemma OpcodeBlock(base: nat, reg: int, other: int)
    requires base % 64 == 0
    ensures base <= Opcode(base, reg) <= base + 0x3F
    ensures 0 <= reg < 64 && 0 <= other < 64 && reg != other ==> Opcode(base, reg) != Opcode(base, other)
  {
    if 0 <= reg < 64 && 0 <= other < 64 {
      assert reg % 64 == reg && other % 64 == other;
    }
  }

  /** The read opcodes lie in 0x6000 to 0x603F and the write opcodes in
      0x7000 to 0x703F. */
  lemma OpcodeRanges(reg: int)
    ensures 0x6000 <= Opcode(CmdRsreg, reg) <= 0x603F
    ensures 0x7000 <= Opcode(CmdWsreg, reg) <= 0x703F
  {
    OpcodeBlock(CmdRsreg, reg, reg);
    OpcodeBlock(CmdWsreg, reg, reg);
  }

  lemma {:induction false} TransfersTwo(a: int, b: int, line: nat -> bool, start: nat)
    ensures Transfers([a, b], line, start) == Transfer(a, line, start) + Transfer(b, line, start + 17)
  {
    TransfersAppend([a], [b], line, start);
    assert [a] + [b] == [a, b];
    TransfersOne(a, line, start);
    TransfersOne(b, line, start + 17);
  }

  /** Two exchanges in a row; the reply to the second is returned. */
  method TransferPair(link: Link, a: int, b: int) returns (word: int)
    requires link.Valid()
    modifies link
    ensures link.Valid()
    ensures link.trace == old(link.trace) + Transfers([a, b], link.dso, old(link.cursor))
    ensures link.cursor == old(link.cursor) + 34
    ensures word == Reply(link.dso, old(link.cursor) + 17)
  {
    var _ := link.TransferWord(a);
    word := link.TransferWord(b);
    TransfersTwo(a, b, link.dso, old(link.cursor));
    AppendAssoc(old(link.trace), Transfer(a, link.dso, old(link.cursor)), Transfer(b, link.dso, old(link.cursor) + 17));
  }

  /** Two more exchanges on a link whose trace so far ends with the
      exchanges of `sent`. */
  method SendPair(link: Link, ghost before: seq<Event>, ghost sent: seq<int>, ghost start: nat, ghost at: nat, a: int, b: int)
    returns (word: int)
    requires link.Valid()
    requires link.trace == before + Transfers(sent, link.dso, start)
    requires at == start + 17 * |sent| && link.cursor == at
    modifies link
    ensures link.Valid()
    ensures link.trace == before + Transfers(sent + [a, b], link.dso, start)
    ensures link.cursor == at + 34
    ensures word == Reply(link.dso, at + 17)
  {
    word := TransferPair(link, a, b);
    TraceExtend(before, sent, [a, b], link.dso, start);
  }

  // ---------------------------------------------------------------------
  // Registers and run control

  /** `read_sys_reg(reg)`: one exchange of the read opcode; the reply is the
      register's value. */
  method ReadSysReg(link: Link, reg: int) returns (val: int)
    requires link.Valid()
    modifies link
    ensures link.Valid()
    ensures link.trace == old(link.trace) + Transfers([Opcode(CmdRsreg, reg)], link.dso, old(link.cursor))
    ensures link.cursor == old(link.cursor) + 17
    ensures val == Reply(link.dso, old(link.cursor))
  {
    var cmd := Opcode(CmdRsreg, reg);
    val := link.TransferWord(cmd);
    TransfersOne(cmd, link.dso, old(link.cursor));
  }

  /** `write_sys_reg(reg, val)`: the write opcode, then the value; both
      replies are dropped. */
  method WriteSysReg(link: Link, reg: int, val: int)
    requires link.Valid()
    modifies link
    ensures link.Valid()
    ensures link.trace == old(link.trace) + Transfers([Opcode(CmdWsreg, reg), val], link.dso, old(link.cursor))
    ensures link.cursor == old(link.cursor) + 34
  {
    var cmd := Opcode(CmdWsreg, reg);
    var _ := link.TransferWord(cmd);
    var _ := link.TransferWord(val);
    TransfersTwo(cmd, val, link.dso, old(link.cursor));
    AppendAssoc(old(link.trace), Transfer(cmd, link.dso, old(link.cursor)), Transfer(val, link.dso, old(link.cursor) + 17));
  }

  /** `run_cpu()`: one exchange of the GO opcode. */
  method RunCpu(link: Link)
    requires link.Valid()
    modifies link
    ensures link.Valid()
    ensures link.trace == old(link.trace) + Transfers([CmdGo], link.dso, old(link.cursor))
    ensures link.cursor == old(link.cursor) + 17
  {
    var _ := link.TransferWord(CmdGo);
    TransfersOne(CmdGo, link.dso, old(link.cursor));
  }

  // ---------------------------------------------------------------------
  // Memory reads

  /** Python's `range(lo, hi, 2)`. */
  function Range2(lo: int, hi: int): (r: seq<int>)
    decreases hi - lo
  {
    if lo >= hi then [] else [lo] + Range2(lo + 2, hi)
  }

  /** The number of words `read_memory` reads for `length` bytes: half of
      `length`, rounded up, and none for a length that is not positive. */
  function ReadCount(length: int): nat
  {
    if length <= 0 then 0 else (length + 1) / 2
  }

  /** `range(address, address + length, 2)` visits `ReadCount(length)`
      addresses, two apart, from `address` on. */
  lemma {:induction false} Range2Visits(address: int, length: int)
    ensures |Range2(address, address + length)| == ReadCount(length)
    ensures forall k :: 0 <= k < ReadCount(length) ==> Range2(address, address + length)[k] == address + 2 * k
    decreases length
  {
    if length > 0 {
      var r, r' := Range2(address, address + length), Range2(address + 2, (address + 2) + (length - 2));
      Range2Visits(address + 2, length - 2);
      assert r == [address] + r';
      assert ReadCount(length) == 1 + ReadCount(length - 2);
      forall k | 0 <= k < ReadCount(length) ensures r[k] == address + 2 * k {
        if k > 0 {
          assert k - 1 < ReadCount(length - 2);
          assert r[k] == r'[k - 1] == address + 2 + 2 * (k - 1);
        }
      }
    }
  }

  /** The words `read_memory` sends for `n` addresses from `address` on: the
      read opcode, then the address, for each address in turn. */
  function ReadCmds(address: int, n: nat): (cmds: seq<int>)
    ensures |cmds| == 2 * n
  {
    seq(2 * n, i requires 0 <= i < 2 * n => if i % 2 == 0 then CmdReadMem else address + 2 * (i / 2))
  }

  /** The addresses `read_memory` sends are those `range(address,
      address + length, 2)` visits, each after the read opcode. */
  lemma ReadCmdsRange(address: int, length: int)
    ensures |Range2(address, address + length)| == ReadCount(length)
    ensures forall k :: 0 <= k < ReadCount(length) ==>
      && ReadCmds(address, ReadCount(length))[2 * k] == CmdReadMem
      && ReadCmds(address, ReadCount(length))[2 * k + 1] == Range2(address, address + length)[k]
  {
    Range2Visits(address, length);
    var n := ReadCount(length);
    forall k | 0 <= k < n
      ensures ReadCmds(address, n)[2 * k] == CmdReadMem
      ensures ReadCmds(address, n)[2 * k + 1] == Range2(address, address + length)[k]
    {
      assert (2 * k) % 2 == 0 && (2 * k + 1) % 2 == 1 && (2 * k + 1) / 2 == k;
    }
  }

  /** Reading one more address sends the read opcode and that address. */
  lemma ReadCmdsSnoc(address: int, k: nat, addr: int)
    requires addr == address + 2 * k
    ensures ReadCmds(address, k + 1) == ReadCmds(address, k) + [CmdReadMem, addr]
  {
  }

  /** `val.to_bytes(2, 'big')`. */
  function WordBytes(w: nat): (bs: seq<Byte>)
    requires w < 0x10000
    ensures |bs| == 2
    ensures 256 * (bs[0] as int) + (bs[1] as int) == w
  {
    [w / 256, w % 256]
  }

  /** `int.from_bytes(bs, 'big')`. */
  function FromBytesBig(bs: seq<Byte>): nat
  {
    if bs == [] then 0 else 256 * FromBytesBig(bs[..|bs| - 1]) + bs[|bs| - 1]
  }

  /** `to_bytes(2, 'big')` and `from_bytes(.., 'big')` undo each other. */
  lemma WordBytesRoundTrip(w: nat, bs: seq<Byte>)
    requires w < 0x10000 && |bs| == 2
    ensures FromBytesBig(WordBytes(w)) == w
    ensures FromBytesBig(bs) < 0x10000 && WordBytes(FromBytesBig(bs)) == bs
  {
    var hi := WordBytes(w)[..1];
    assert FromBytesBig(hi) == w / 256 by { assert hi[..0] == []; }
    assert bs[..1][..0] == [];
    assert FromBytesBig(bs) == 256 * (bs[0] as int) + bs[1];
  }

  /** The bytes `read_memory` returns for `n` words read with the first
      sample at `start`: each address takes two exchanges, and the reply to
      the second gives two bytes, high byte first. */
  function ReadBytes(line: nat -> bool, start: nat, n: nat): (data: seq<Byte>)
    ensures |data| == 2 * n
  {
    seq(2 * n, i requires 0 <= i < 2 * n => WordBytes(Reply(line, start + 34 * (i / 2) + 17))[i % 2])
  }

  /** Reading one more word appends its two bytes. */
  lemma ReadBytesSnoc(line: nat -> bool, start: nat, k: nat, at: nat)
    requires at == start + 34 * k
    ensures ReadBytes(line, start, k + 1) == ReadBytes(line, start, k) + WordBytes(Reply(line, at + 17))
  {
    var a, b := ReadBytes(line, start, k + 1), ReadBytes(line, start, k) + WordBytes(Reply(line, at + 17));
    forall i | 0 <= i < 2 * k + 2 ensures a[i] == b[i] {
      if i < 2 * k {
        ReadByteAt(line, start, k + 1, i / 2, i);
        ReadByteAt(line, start, k, i / 2, i);
      } else {
        ReadByteAt(line, start, k + 1, k, i);
      }
    }
  }

  /** Bytes `2 k` and `2 k + 1` of the result are the reply to the `k`-th
      address, high byte first. */
  lemma ReadBytesAt(line: nat -> bool, start: nat, n: nat, k: nat)
    requires k < n
    ensures 256 * (ReadBytes(line, start, n)[2 * k] as int) + ReadBytes(line, start, n)[2 * k + 1]
         == Reply(line, start + 34 * k + 17)
  {
    ReadByteAt(line, start, n, k, 2 * k);
    ReadByteAt(line, start, n, k, 2 * k + 1);
  }

  lemma ReadByteAt(line: nat -> bool, start: nat, n: nat, k: nat, i: nat)
    requires k < n && i / 2 == k
    ensures ReadBytes(line, start, n)[i] == WordBytes(Reply(line, start + 34 * k + 17))[i % 2]
  {
  }

  /** `read_memory(address, length)`. */
  method ReadMemory(link: Link, address: int, length: int) returns (data: seq<Byte>)
    requires link.Valid()
    modifies link
    ensures link.Valid()
    ensures link.trace == old(link.trace) + Transfers(ReadCmds(address, ReadCount(length)), link.dso, old(link.cursor))
    ensures link.cursor == old(link.cursor) + 34 * ReadCount(length)
    ensures data == ReadBytes(link.dso, old(link.cursor), ReadCount(length))
  {
    ghost var start := link.cursor;
    ghost var k: nat := 0;
    data := [];
    var addr := address;
    while addr < address + length
      invariant link.Valid()
      invariant addr == address + 2 * k && k <= ReadCount(length)
      invariant k < ReadCount(length) <==> addr < address + length
      invariant link.cursor == start + 34 * k
      invariant link.trace == old(link.trace) + Transfers(ReadCmds(address, k), link.dso, start)
      invariant data == ReadBytes(link.dso, start, k)
      decreases address + length - addr
    {
      ghost var at := start + 34 * k;
      var val := ReadWord(link, address, addr, k, old(link.trace), start, at);
      // val.to_bytes(2, 'big')
      data := data + WordBytes(val);
      ReadBytesSnoc(link.dso, start, k, at);
      addr := addr + 2;
      k := k + 1;
    }
  }

  /** One pass of the loop of `read_memory`: arm a read and send the
      address; the reply is the word at that address. */
  method ReadWord(link: Link, address: int, addr: int, ghost k: nat, ghost before: seq<Event>, ghost start: nat, ghost at: nat)
    returns (val: nat)
    requires link.Valid() && addr == address + 2 * k
    requires at == start + 34 * k && link.cursor == at
    requires link.trace == before + Transfers(ReadCmds(address, k), link.dso, start)
    modifies link
    ensures link.Valid()
    ensures link.cursor == start + 34 * (k + 1)
    ensures link.trace == before + Transfers(ReadCmds(address, k + 1), link.dso, start)
    ensures val == Reply(link.dso, at + 17)
  {
    assert |ReadCmds(address, k)| == 2 * k;
    val := SendPair(link, before, ReadCmds(address, k), start, at, CmdReadMem, addr);
    ReadCmdsSnoc(address, k, addr);
  }

  // ---------------------------------------------------------------------
  // Memory writes

  /** The number of words `write_memory` sends: one per started pair. */
  function WriteCount(size: nat): nat
  {
    (size + 1) / 2
  }

  /** `int.from_bytes(data[2 j:2 j + 2], 'big')`: the slice is one byte long
      when it starts at the last byte of odd-length data. */
  function ChunkWord(data: seq<Byte>, j: nat): nat
    requires j < WriteCount(|data|)
  {
    FromBytesBig(data[2 * j .. if 2 * j + 2 <= |data| then 2 * j + 2 else |data|])
  }

  /** A full pair is sent big-endian; a trailing odd byte is sent as a word
      equal to that byte. */
  lemma ChunkWordValue(data: seq<Byte>, j: nat)
    requires j < WriteCount(|data|)
    ensures 2 * j + 1 < |data| ==> ChunkWord(data, j) == 256 * (data[2 * j] as int) + data[2 * j + 1]
    ensures 2 * j + 1 == |data| ==> ChunkWord(data, j) == data[2 * j]
  {
    var c := data[2 * j .. if 2 * j + 2 <= |data| then 2 * j + 2 else |data|];
    if 2 * j + 1 < |data| {
      assert c == [data[2 * j], data[2 * j + 1]];
      assert c[..1][..0] == [] && c[..1] == [data[2 * j]];
      assert FromBytesBig(c[..1]) == data[2 * j];
      assert FromBytesBig(c) == 256 * FromBytesBig(c[..1]) + data[2 * j + 1];
    } else {
      assert c == [data[2 * j]];
      assert c[..0] == [];
      assert FromBytesBig(c) == 256 * FromBytesBig(c[..0]) + data[2 * j];
    }
  }

  /** The words `write_memory` sends for the first `n` chunks of `data`: the
      write opcode, then the chunk's word, for each chunk in turn. */
  function WriteCmds(data: seq<Byte>, n: nat): (cmds: seq<int>)
    requires n <= WriteCount(|data|)
    ensures |cmds| == 2 * n
  {
    seq(2 * n, i requires 0 <= i < 2 * n => if i % 2 == 0 then CmdWriteMem else ChunkWord(data, i / 2))
  }

  /** Writing one more chunk sends the write opcode and the chunk's word. */
  lemma WriteCmdsSnoc(data: seq<Byte>, k: nat, word: int)
    requires k < WriteCount(|data|) && word == ChunkWord(data, k)
    ensures WriteCmds(data, k + 1) == WriteCmds(data, k) + [CmdWriteMem, word]
  {
  }

  /** `write_memory(address, data)`. The address is never sent. */
  method WriteMemory(link: Link, address: int, data: seq<Byte>)
    requires link.Valid()
    modifies link
    ensures link.Valid()
    ensures link.trace == old(link.trace) + Transfers(WriteCmds(data, WriteCount(|data|)), link.dso, old(link.cursor))
    ensures link.cursor == old(link.cursor) + 34 * WriteCount(|data|)
  {
    ghost var start := link.cursor;
    ghost var k: nat := 0;
    var i := 0;
    while i < |data|
      invariant link.Valid()
      invariant i == 2 * k && k <= WriteCount(|data|)
      invariant k < WriteCount(|data|) <==> i < |data|
      invariant link.cursor == start + 34 * k
      invariant link.trace == old(link.trace) + Transfers(WriteCmds(data, k), link.dso, start)
      decreases |data| - i
    {
      WriteChunk(link, data, i, k, old(link.trace), start, start + 34 * k);
      i := i + 2;
      k := k + 1;
    }
  }

  /** One pass of the loop of `write_memory`: the write opcode, then the
      chunk at `i` as a big-endian word. */
  method WriteChunk(link: Link, data: seq<Byte>, i: nat, ghost k: nat, ghost before: seq<Event>, ghost start: nat, ghost at: nat)
    requires link.Valid() && i == 2 * k && i < |data|
    requires at == start + 34 * k && link.cursor == at
    requires link.trace == before + Transfers(WriteCmds(data, k), link.dso, start)
    modifies link
    ensures link.Valid()
    ensures link.cursor == at + 34
    ensures link.trace == before + Transfers(WriteCmds(data, k + 1), link.dso, start)
  {
    var word := FromBytesBig(data[i .. if i + 2 <= |data| then i + 2 else |data|]);
    assert word == ChunkWord(data, k);
    assert |WriteCmds(data, k)| == 2 * k;
    var _ := SendPair(link, before, WriteCmds(data, k), start, at, CmdWriteMem, word);
    WriteCmdsSnoc(data, k, word);
  }
}
