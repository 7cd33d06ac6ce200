/** Decoding of AMX code into instructions. */
module Disasm {
  import opened Word32
  import Amx

  /** A loaded program: the cell at every byte distance from the start of the code, the address
      of the code in memory, the length of the code section in bytes, and the natives table:
      which indexes have a name, the address of a native, 0 when it is not known, and which
      addresses are those of a native. */
  datatype Program = Program(cell: int -> Word, base: Word, length: int, named: Word -> bool, address: Word -> Word,
                             registered: Word -> bool, direct: bool)

  datatype Instruction = Instruction(address: int, opcode: Word, operands: seq<Word>)
  {
    function Size(): int { 4 * (1 + |operands|) }
  }

  // ---- one instruction -------------------------------------------------------------

  predicate OneOperand(id: Word) {
    || 1 <= id <= 8 || id == 10 || 11 <= id <= 22 || id == 24 || id == 26 || 28 <= id <= 32
    || 38 <= id <= 41 || id == 44 || id == 45 || id == 49 || 51 <= id <= 64 || 68 <= id <= 71
    || id == 87 || id == 88 || id == 91 || id == 92 || id == 105 || id == 106 || id == 109 || id == 110
    || id == 114 || id == 115 || 117 <= id <= 121 || id == 123 || id == 129 || id == 133 || id == 135
  }

  predicate NoOperand(id: Word) {
    || id == 9 || id == 23 || id == 25 || id == 27 || 33 <= id <= 37 || id == 42 || id == 43 || 46 <= id <= 48
    || id == 50 || 65 <= id <= 67 || 72 <= id <= 86 || id == 89 || id == 90 || 93 <= id <= 104
    || id == 107 || id == 108 || 111 <= id <= 113 || id == 116 || id == 122 || id == 128 || id == 131 || id == 132
    || id == 134 || id == 137
  }

  const CASETBL: Word := 130

  /** How many operands follow the opcode at an address; None for an opcode the disassembler
      does not know. A case table has two cells a record, and one record more than it says. */
  function OperandCount(p: Program, address: int): Option<nat> {
    var id := p.cell(address);
    if OneOperand(id) then Some(1)
    else if NoOperand(id) then Some(0)
    else if id == CASETBL then
      var records := Int(p.cell(address + 4)) + 1;
      Some(if records < 0 then 0 else 2 * records)
    else None
  }

  function Cells(p: Program, address: int, n: nat): (r: seq<Word>)
    ensures |r| == n
  {
    seq(n, k requires 0 <= k < n => p.cell(address + 4 * k))
  }

  function InstructionAt(p: Program, address: int): Option<Instruction> {
    var n :- OperandCount(p, address);
    Some(Instruction(address, p.cell(address), Cells(p, address + 4, n)))
  }

  /** The decoder proper, appending operands one at a time. */
  method DecodeInstruction(p: Program, start: int) returns (r: Option<Instruction>)
    ensures r == InstructionAt(p, start)
  {
    var address := start;
    var id := p.cell(address);
    address := address + 4;
    var operands: seq<Word> := [];
    if OneOperand(id) {
      operands := operands + [p.cell(address)];
      assert operands == Cells(p, start + 4, 1);
    } else if NoOperand(id) {
      assert operands == Cells(p, start + 4, 0);
    } else if id == CASETBL {
      var records := Int(p.cell(address)) + 1;
      var i := 0;
      while i < records * 2
        invariant 0 <= i && (i <= records * 2 || i == 0) && |operands| == i && address == start + 4 + 4 * i
        invariant operands == Cells(p, start + 4, i)
      {
        operands := operands + [p.cell(address)];
        address := address + 4;
        i := i + 1;
      }
    } else {
      return None;
    }
    r := Some(Instruction(start, id, operands));
  }

  // ---- the whole code section --------------------------------------------------------

  /** Every instruction from an address on, and whether decoding got to the end of the code. */
  function Stream(p: Program, address: int): (seq<Instruction>, bool)
    decreases p.length - address
  {
    if !(0 <= address < p.length) then ([], true)
    else
      match InstructionAt(p, address)
      case None => ([], false)
      case Some(i) => var rest := Stream(p, address + i.Size()); ([i] + rest.0, rest.1)
  }

  /** Decodes one instruction after another. */
  class Disassembler {
    const program: Program
    var address: int

    constructor (p: Program)
      ensures program == p && address == 0
    {
      program := p;
      address := 0;
    }

    /** None at the end of the code and, with the error flag, at an opcode that is not known. */
    method Decode() returns (r: Option<Instruction>, error: bool)
      modifies this
      ensures error == (0 <= old(address) < program.length && InstructionAt(program, old(address)).None?)
      ensures r == if 0 <= old(address) < program.length then InstructionAt(program, old(address)) else None
      ensures address == old(address) + if r.Some? then r.value.Size() else 0
    {
      r, error := None, false;
      if 0 <= address < program.length {
        r := DecodeInstruction(program, address);
        if r.Some? { address := address + r.value.Size(); }
        error := r.None?;
      }
    }
  }

  /** The first of the two passes only counts. */
  method CountInstructions(p: Program) returns (n: nat)
    ensures n == |Stream(p, 0).0|
  {
    n := 0;
    var disasm := new Disassembler(p);
    var r, error := disasm.Decode();
    ghost var last := 0;
    while r.Some?
      invariant disasm.program == p && fresh(disasm)
      invariant r == if 0 <= last < p.length then InstructionAt(p, last) else None
      invariant r.Some? ==> disasm.address == last + r.value.Size()
      invariant n + |Stream(p, last).0| == |Stream(p, 0).0|
      decreases p.length - last
    {
      n := n + 1;
      last := disasm.address;
      r, error := disasm.Decode();
    }
  }

  /** Instructions follow one another from the first address on; when nothing stopped the
      decoder, the last one reaches the end of the code section. */
  lemma {:induction false} StreamIsContiguous(p: Program, address: int)
    requires address >= 0
    ensures var s := Stream(p, address).0;
            && (|s| > 0 ==> s[0].address == address)
            && (forall k :: 0 <= k < |s| ==> s[k].address >= address && s[k].address < p.length)
            && (forall k {:trigger s[k]} :: 0 <= k < |s| - 1 ==> s[k + 1].address == s[k].address + s[k].Size())
            && (Stream(p, address).1 && |s| > 0 ==> s[|s| - 1].address + s[|s| - 1].Size() >= p.length)
    decreases p.length - address
  {
    if address < p.length && InstructionAt(p, address).Some? {
      var i := InstructionAt(p, address).value;
      var rest := Stream(p, address + i.Size()).0;
      StreamIsContiguous(p, address + i.Size());
      var s := Stream(p, address).0;
      assert s == [i] + rest;
      forall k | 0 <= k < |s| - 1
        ensures s[k + 1].address == s[k].address + s[k].Size()
      {
        if k > 0 { assert s[k] == rest[k - 1] && s[k + 1] == rest[k - 1 + 1]; }
      }
      forall k | 0 <= k < |s|
        ensures s[k].address >= address && s[k].address < p.length
      {
        if k > 0 { assert s[k] == rest[k - 1]; }
      }
    }
  }

  // ---- case tables ---------------------------------------------------------------------

  /** The records of the table whose instruction is at a memory address: the first names the
      default. None when the table has not even that. */
  function Records(p: Program, table: Word): Option<seq<Amx.Case>> {
    var at := Int(Sub(table, p.base)) + 4;
    var n := Int(p.cell(at));
    if n < 0 then None
    else Some(seq(n + 1, k requires 0 <= k < n + 1 => Amx.Case(p.cell(at + 8 * k), Relative(p, p.cell(at + 8 * k + 4)))))
  }

  /** A memory address as a code address. */
  function Relative(p: Program, a: Word): int { Int(Sub(a, p.base)) }

  method ReadTable(p: Program, table: Word) returns (records: seq<Amx.Case>)
    requires Records(p, table).Some?
    ensures records == Records(p, table).value
  {
    var at := Int(Sub(table, p.base)) + 4;
    var n := Int(p.cell(at));
    records := [];
    var i := 0;
    while i <= n
      invariant 0 <= i <= n + 1 && records == Records(p, table).value[..i]
    {
      records := records + [Amx.Case(p.cell(at + 8 * i), Relative(p, p.cell(at + 8 * i + 4)))];
      i := i + 1;
    }
  }

  /** Scans the records behind the default for the least value. */
  method FindMinValue(records: seq<Amx.Case>) returns (v: Word)
    requires |records| > 1
    ensures forall k :: 1 <= k < |records| ==> Int(v) <= Int(records[k].value)
    ensures exists k :: 1 <= k < |records| && v == records[k].value
  {
    v := records[1].value;
    var i := 1;
    while i < |records| - 1
      invariant 1 <= i <= |records| - 1
      invariant forall k :: 1 <= k <= i ==> Int(v) <= Int(records[k].value)
      invariant exists k :: 1 <= k <= i && v == records[k].value
    {
      if Int(records[i + 1].value) < Int(v) { v := records[i + 1].value; }
      i := i + 1;
    }
  }

  method FindMaxValue(records: seq<Amx.Case>) returns (v: Word)
    requires |records| > 1
    ensures forall k :: 1 <= k < |records| ==> Int(v) >= Int(records[k].value)
    ensures exists k :: 1 <= k < |records| && v == records[k].value
  {
    v := records[1].value;
    var i := 1;
    while i < |records| - 1
      invariant 1 <= i <= |records| - 1
      invariant forall k :: 1 <= k <= i ==> Int(v) >= Int(records[k].value)
      invariant exists k :: 1 <= k <= i && v == records[k].value
    {
      if Int(records[i + 1].value) > Int(v) { v := records[i + 1].value; }
      i := i + 1;
    }
  }
}
