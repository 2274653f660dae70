/** The register record, its decoders and the honest scooter memory behind a register. */
module Registers {
  import opened Wrappers
  import opened Bytes
  import opened Protocol

  /** What a decoder can produce. Scaled numbers are kept as an uninterpreted pair. */
  datatype Value =
    | Number(n: int)
    | Flag(b: bool)
    | Text(s: string)
    | Numbers(ns: seq<int>)

  /**
   A readable register. `convert` decodes and scales a payload and is None where that raises
   ValueError or IndexError.
   */
  datatype Register = Register(
    key: string,
    board: DeviceId,
    index: nat,
    length: nat,
    isStatic: bool,
    convert: Bytes -> Option<Value>)

  predicate UniqueKeys(table: seq<Register>) {
    forall i, j :: 0 <= i < j < |table| ==> table[i].key != table[j].key
  }

  function StaticRegisters(table: seq<Register>): (r: seq<Register>)
  {
    if table == [] then []
    else (if table[0].isStatic then [table[0]] else []) + StaticRegisters(table[1..])
  }

  function DynamicRegisters(table: seq<Register>): (r: seq<Register>)
  {
    if table == [] then []
    else (if table[0].isStatic then [] else [table[0]]) + DynamicRegisters(table[1..])
  }

  /** The registers one poll reads. */
  function PollTable(table: seq<Register>, includeStatic: bool): seq<Register> {
    if includeStatic then StaticRegisters(table) + DynamicRegisters(table) else DynamicRegisters(table)
  }

  lemma {:induction false} Partition(table: seq<Register>)
    ensures forall r :: r in StaticRegisters(table) <==> r in table && r.isStatic
    ensures forall r :: r in DynamicRegisters(table) <==> r in table && !r.isStatic
    ensures UniqueKeys(table) ==> UniqueKeys(StaticRegisters(table)) && UniqueKeys(DynamicRegisters(table))
  {
    if table != [] {
      var rest := table[1..];
      assert table == [table[0]] + rest;
      Partition(rest);
      if UniqueKeys(table) {
        assert forall i :: 0 <= i < |rest| ==> table[0].key != table[i + 1].key && rest[i] == table[i + 1];
        assert UniqueKeys(rest);
        assert forall r :: r in rest ==> r.key != table[0].key;
        UniqueCons(table[0], StaticRegisters(rest));
        UniqueCons(table[0], DynamicRegisters(rest));
      }
    }
  }

  lemma UniqueCons(reg: Register, regs: seq<Register>)
    ensures UniqueKeys(regs) && (forall r :: r in regs ==> r.key != reg.key) ==> UniqueKeys([reg] + regs)
  {
  }

  lemma KeyDetermines(table: seq<Register>, a: Register, b: Register)
    requires UniqueKeys(table) && a in table && b in table && a.key == b.key
    ensures a == b
  {
  }

  /** A poll reads each register of its kind once. */
  lemma PollTableSelects(table: seq<Register>, includeStatic: bool)
    ensures forall r :: r in PollTable(table, includeStatic) <==> r in table && (includeStatic || !r.isStatic)
    ensures UniqueKeys(table) ==> UniqueKeys(PollTable(table, includeStatic))
  {
    Partition(table);
    var s: seq<Register>, d: seq<Register> := StaticRegisters(table), DynamicRegisters(table);
    if UniqueKeys(table) && includeStatic {
      forall i, j | 0 <= i < j < |s + d|
        ensures (s + d)[i].key != (s + d)[j].key
      {
        if i < |s| <= j {
          assert s[i] in s && d[j - |s|] in d;
          if s[i].key == d[j - |s|].key {
            KeyDetermines(table, s[i], d[j - |s|]);
          }
        }
      }
    }
  }

  /** Some of `ys` in the order they have there. */
  ghost predicate Within(xs: seq<Register>, ys: seq<Register>)
    decreases |ys|
  {
    if ys == [] then xs == []
    else Within(xs, ys[1..]) || (xs != [] && ys[0] == xs[0] && Within(xs[1..], ys[1..]))
  }

  lemma {:induction false} SelectionsKeepOrder(table: seq<Register>)
    ensures Within(StaticRegisters(table), table) && Within(DynamicRegisters(table), table)
  {
    if table != [] {
      SelectionsKeepOrder(table[1..]);
      if table[0].isStatic {
        TakenFirst(StaticRegisters(table[1..]), table);
        assert DynamicRegisters(table) == DynamicRegisters(table[1..]);
      } else {
        TakenFirst(DynamicRegisters(table[1..]), table);
        assert StaticRegisters(table) == StaticRegisters(table[1..]);
      }
    }
  }

  lemma TakenFirst(xs: seq<Register>, table: seq<Register>)
    requires table != [] && Within(xs, table[1..])
    ensures Within([table[0]] + xs, table)
  {
    assert ([table[0]] + xs)[1..] == xs;
  }

  /** A poll reads static registers first, and those of either kind in the order of the table. */
  lemma PollTableOrder(table: seq<Register>, includeStatic: bool) returns (n: nat)
    ensures var regs := PollTable(table, includeStatic);
            && n <= |regs| && (n > 0 ==> includeStatic)
            && (forall i :: 0 <= i < |regs| ==> (regs[i].isStatic <==> i < n))
            && Within(regs[..n], table) && Within(regs[n..], table)
  {
    var s, d := StaticRegisters(table), DynamicRegisters(table);
    n := if includeStatic then |s| else 0;
    Partition(table);
    SelectionsKeepOrder(table);
    NothingWithin(table);
    var regs := PollTable(table, includeStatic);
    assert regs[n..] == d && regs[..n] == if includeStatic then s else [];
    forall i | 0 <= i < |regs|
      ensures regs[i].isStatic <==> i < n
    {
      assert i < n ==> regs[i] == s[i] && s[i] in s;
      assert i >= n ==> regs[i] == d[i - n] && d[i - n] in d;
    }
  }

  lemma {:induction false} NothingWithin(table: seq<Register>)
    ensures Within([], table)
  {
    if table != [] {
      NothingWithin(table[1..]);
    }
  }

  // ----- integer decoders -----

  /** `int.from_bytes(data, "little")`. */
  function LittleEndian(data: Bytes): (n: nat)
  {
    if data == [] then 0 else data[0] + 256 * LittleEndian(data[1..])
  }

  function U16(data: Bytes): nat {
    LittleEndian(Take(data, 2))
  }

  /** Two's complement of however many of the two bytes are there. */
  function S16(data: Bytes): int {
    var d := Take(data, 2);
    var n := LittleEndian(d);
    if d != [] && d[|d| - 1] >= 0x80 then n - (if |d| == 1 then 0x100 else 0x1_0000) else n
  }

  function U32(data: Bytes): nat {
    U16(Take(data, 2)) + U16(Take(Drop(data, 2), 2)) * 0x1_0000
  }

  lemma U16Value(data: Bytes, lo: int, hi: int)
    requires |data| >= 2 && data[0] == lo && data[1] == hi
    ensures U16(data) == lo + 256 * hi
  {
    var d := Take(data, 2);
    assert d[1..] == [d[1]] && LittleEndian(d[1..]) == hi;
  }

  /** Millivolts of every cell that is not zero. */
  function CellMillivolts(data: Bytes): seq<nat> {
    if |data| < 2 then []
    else (if U16(data) == 0 then [] else [U16(data)]) + CellMillivolts(data[2..])
  }

  /** Millivolts of every cell slot, empty ones included. */
  function CellSlots(data: Bytes): seq<nat> {
    if |data| < 2 then [] else [U16(data)] + CellSlots(data[2..])
  }

  /** A list without the zeros at its end. */
  function DropTrailingZeros(cells: seq<nat>): (r: seq<nat>)
    ensures r <= cells
  {
    if cells == [] || cells[|cells| - 1] != 0 then cells else DropTrailingZeros(cells[..|cells| - 1])
  }

  function DropZeros(cells: seq<nat>): seq<nat> {
    if cells == [] then [] else (if cells[0] == 0 then [] else [cells[0]]) + DropZeros(cells[1..])
  }

  lemma {:induction false} CellsAreNonzeroSlots(data: Bytes)
    ensures CellMillivolts(data) == DropZeros(CellSlots(data))
  {
    if |data| >= 2 {
      CellsAreNonzeroSlots(data[2..]);
    }
  }

  /** No empty slot comes before a cell that reads a voltage. */
  predicate EmptySlotsTrail(cells: seq<nat>) {
    forall i, j :: 0 <= i < j < |cells| && cells[i] == 0 ==> cells[j] == 0
  }

  lemma {:induction false} DropZerosLength(cells: seq<nat>)
    ensures |DropZeros(cells)| <= |cells|
    ensures |DropZeros(cells)| == |cells| <==> 0 !in cells
    ensures 0 !in cells ==> DropZeros(cells) == cells
    ensures 0 !in DropZeros(cells)
  {
    if cells != [] {
      DropZerosLength(cells[1..]);
      assert cells == [cells[0]] + cells[1..];
    }
  }

  lemma {:induction false} DropZerosAppendZero(cells: seq<nat>)
    ensures DropZeros(cells + [0]) == DropZeros(cells)
  {
    if cells != [] {
      assert (cells + [0])[1..] == cells[1..] + [0];
      DropZerosAppendZero(cells[1..]);
    }
  }

  lemma {:induction false} DropZerosIsTrailingIff(cells: seq<nat>)
    ensures DropZeros(cells) == DropTrailingZeros(cells) <==> EmptySlotsTrail(cells)
    decreases |cells|
  {
    DropZerosLength(cells);
    if cells != [] {
      var init := cells[..|cells| - 1];
      assert cells == init + [cells[|cells| - 1]];
      if cells[|cells| - 1] == 0 {
        DropZerosAppendZero(init);
        DropZerosIsTrailingIff(init);
        assert EmptySlotsTrail(cells) <==> EmptySlotsTrail(init);
      } else if 0 in cells {
        var i :| 0 <= i < |cells| && cells[i] == 0;
        assert !EmptySlotsTrail(cells) by {
          assert i < |cells| - 1;
        }
      }
    }
  }

  /**
   The decoder's comment promises to drop trailing empty slots. It drops every empty slot, and
   the two agree exactly when no empty slot comes before a cell with a reading.
   */
  lemma CellsDropTrailingIff(data: Bytes)
    ensures CellMillivolts(data) == DropTrailingZeros(CellSlots(data)) <==> EmptySlotsTrail(CellSlots(data))
  {
    CellsAreNonzeroSlots(data);
    DropZerosIsTrailingIff(CellSlots(data));
  }

  /** A payload the decoder and its comment disagree on: an empty slot before a cell of one millivolt. */
  lemma CellsDiffer(data: Bytes)
    requires data == [0, 0, 1, 0]
    ensures CellMillivolts(data) == [1] && DropTrailingZeros(CellSlots(data)) == [0, 1]
  {
    assert data[2..] == [1, 0] && data[2..][2..] == [];
    U16Value(data, 0, 0);
    U16Value(data[2..], 1, 0);
    assert CellMillivolts(data[2..][2..]) == [] && CellSlots(data[2..][2..]) == [];
    assert CellMillivolts(data) == [] + CellMillivolts(data[2..]) && CellMillivolts(data[2..]) == [1] + [];
    assert CellSlots(data) == [0] + CellSlots(data[2..]) && CellSlots(data[2..]) == [1] + [];
    assert CellSlots(data) == [0, 1];
  }

  /** The word-wise 32-bit decoder reads four little-endian bytes as one number. */
  lemma U32IsLittleEndian(data: Bytes)
    ensures U32(data) == LittleEndian(Take(data, 4))
  {
    if |data| >= 2 {
      assert Take(Drop(data, 2), 2) == Take(data, 4)[2..];
      assert Take(Take(data, 2), 2) == Take(Take(data, 4), 2);
      assert Take(Take(Drop(data, 2), 2), 2) == Take(Drop(data, 2), 2);
      TwoBytesFirst(Take(data, 4));
    }
  }

  /** Numbers that fit `bytes` bytes: 1, 256 or 65536. */
  function Modulus(bytes: nat): nat
    requires bytes <= 2
  {
    if bytes == 0 then 1 else if bytes == 1 then 0x100 else 0x1_0000
  }

  /**
   The signed decoder is two's complement of the bytes it reads, two at most: in range, and the
   unsigned value up to a multiple of the modulus.
   */
  lemma S16IsTwosComplement(data: Bytes, n: int)
    ensures var m: int := Modulus(|Take(data, 2)|);
            S16(data) == n <==> -m <= 2 * n < m && (n - U16(data)) % m == 0
  {
    var d := Take(data, 2);
    assert Take(d, 2) == d;
    if |d| == 1 {
      var lo: int := d[0];
      assert d[1..] == [] && LittleEndian(d) == lo;
    } else if |d| == 2 {
      var lo: int, hi: int := d[0], d[1];
      U16Value(data, lo, hi);
      assert S16(data) == lo + 256 * hi - (if hi >= 0x80 then 0x1_0000 else 0);
    }
  }

  lemma {:induction false} TwoBytesFirst(data: Bytes)
    requires |data| >= 2
    ensures LittleEndian(data) == U16(data) + 0x1_0000 * LittleEndian(data[2..])
  {
    var last: Bytes := [data[1]];
    assert data[1..][1..] == data[2..] && LittleEndian(data[1..]) == data[1] + 256 * LittleEndian(data[2..]);
    assert data[..2][1..] == last && last[1..] == [] && LittleEndian(last) == data[1];
  }

  // ----- the scooter's memory -----

  /** The bytes of every board, addressed in 16-bit words. */
  type Memory = DeviceId -> Bytes

  /** `length` bytes from word `index` on, fewer at the end of the board's memory. */
  function Slice(memory: Memory, board: DeviceId, index: nat, length: nat): Bytes {
    Take(Drop(memory(board), 2 * index), length)
  }

  /** Inside the memory these are the bytes from twice the index on. */
  lemma SliceIs(memory: Memory, board: DeviceId, index: nat, length: nat)
    ensures 2 * index + length <= |memory(board)| ==>
              Slice(memory, board, index, length) == memory(board)[2 * index..2 * index + length]
    ensures 2 * index <= |memory(board)| < 2 * index + length ==>
              Slice(memory, board, index, length) == memory(board)[2 * index..]
    ensures |memory(board)| < 2 * index ==> Slice(memory, board, index, length) == []
  {
  }

  /**
   A read reply that tells the truth: a prefix of the board's memory at its index, and at least
   a whole word unless the memory ends first.
   */
  predicate Honest(memory: Memory, p: Packet) {
    p.command == READ_ACK ==>
      && p.data <= Drop(memory(p.source), 2 * p.index)
      && Slice(memory, p.source, p.index, 2) <= p.data
  }
}
