/** The numbers of the opcodes: which cells stand for which operation. */
module Opcodes {
  import opened Word32
  import Amx
  import opened Disasm
  import opened Translate

  predicate Alone(i: Instruction, id: int) { i.opcode == id && i.operands == [] }

  predicate With(i: Instruction, id: int, v: Word) { i.opcode == id && i.operands == [v] }

  /** An operand that names the code address d. */
  predicate To(p: Program, i: Instruction, id: int, d: int) {
    i.opcode == id && |i.operands| == 1 && -HALF <= d < HALF && i.operands[0] == Wrap(p.base + d)
  }

  function Acc(r: Amx.Acc): int { if r.ALT? then 1 else 0 }

  function Mode(m: Amx.Mode): int { if m.Frm? then 1 else 0 }

  /** Relations in the order of their opcodes. */
  function Rank(r: Amx.Rel): int {
    match r
    case Eq => 0 case Neq => 1
    case Less => 2 case Leq => 3 case Grtr => 4 case Geq => 5
    case SLess => 6 case SLeq => 7 case SGrtr => 8 case SGeq => 9
  }

  predicate MemCells(i: Instruction, op: Amx.MemOp) {
    match op
    case Load(r, m, v) => With(i, 1 + 2 * Mode(m) + Acc(r), v)
    case LRef(r, m, v) => With(i, 5 + 2 * Mode(m) + Acc(r), v)
    case LoadI => Alone(i, 9)
    case LodbI(v) => With(i, 10, v)
    case Const(r, v) => With(i, 11 + Acc(r), v)
    case Addr(r, v) => With(i, 13 + Acc(r), v)
    case Stor(r, m, v) => With(i, 15 + 2 * Mode(m) + Acc(r), v)
    case SRef(r, m, v) => With(i, 19 + 2 * Mode(m) + Acc(r), v)
    case StorI => Alone(i, 23)
    case StrbI(v) => With(i, 24, v)
    case Lidx => Alone(i, 25)
    case LidxB(v) => With(i, 26, v)
    case IdxAddr => Alone(i, 27)
    case IdxAddrB(v) => With(i, 28, v)
    case ZeroM(m, v) => With(i, 91 + Mode(m), v)
    case IncM(m, v) => With(i, 109 + Mode(m), v)
    case IncI => Alone(i, 111)
    case DecM(m, v) => With(i, 114 + Mode(m), v)
    case DecI => Alone(i, 116)
  }

  predicate AccCells(i: Instruction, op: Amx.AccOp) {
    match op
    case Align(r, v) => With(i, 29 + Acc(r), v)
    case Move(r) => Alone(i, 33 + Acc(r))
    case Exchange => Alone(i, 35)
    case ShiftAlt(k) => Alone(i, if k.Shl? then 65 else if k.Shr? then 66 else 67)
    case ShiftC(k, r, v) => !k.Sshr? && With(i, (if k.Shl? then 68 else 70) + Acc(r), v)
    case SMul => Alone(i, 72)
    case SDiv => Alone(i, 73)
    case SDivAlt => Alone(i, 74)
    case UMul => Alone(i, 75)
    case UDiv => Alone(i, 76)
    case UDivAlt => Alone(i, 77)
    case Binary(b) =>
      Alone(i, match b case AddB => 78 case SubB => 79 case SubAltB => 80 case AndB => 81 case OrB => 82 case XorB => 83)
    case Unary(u) => Alone(i, match u case NotU => 84 case NegU => 85 case InvertU => 86)
    case AddC(v) => With(i, 87, v)
    case SMulC(v) => With(i, 88, v)
    case Zero(r) => Alone(i, 89 + Acc(r))
    case Sign(r) => Alone(i, 93 + Acc(r))
    case Compare(r) => Alone(i, 95 + Rank(r))
    case EqC(r, v) => With(i, 105 + Acc(r), v)
    case IncAcc(r) => Alone(i, 107 + Acc(r))
    case DecAcc(r) => Alone(i, 112 + Acc(r))
  }

  predicate StackCells(i: Instruction, op: Amx.StackOp) {
    match op
    case LCtrl(v) => v != 8 && With(i, 31, v)
    case SCtrl(v) => v != 6 && v != 8 && With(i, 32, v)
    case PushAcc(r) => Alone(i, 36 + Acc(r))
    case PushC(v) => With(i, 39, v)
    case PushM(m, v) => With(i, 40 + Mode(m), v)
    case PopAcc(r) => Alone(i, 42 + Acc(r))
    case Stack(v) => With(i, 44, v)
    case Heap(v) => With(i, 45, v)
    case Proc => Alone(i, 46)
    case Swap(r) => Alone(i, 131 + Acc(r))
    case PushAdr(v) => With(i, 133, v)
  }

  predicate BlockCells(i: Instruction, op: Amx.BlockOp) {
    match op
    case Movs(v) => With(i, 117, v)
    case Cmps(v) => With(i, 118, v)
    case Fill(v) => With(i, 119, v)
  }

  /** The cells of a case table whose instruction is at code address t: the number of records
      behind the opcode, the default's address in the second of two cells, then of each record the
      value and the address. */
  ghost predicate TableCells(p: Program, t: int, cases: seq<Amx.Case>, default: int) {
    && Int(p.cell(t + 4)) == |cases|
    && default == Int(Sub(p.cell(t + 8), p.base))
    && forall k :: 0 <= k < |cases| ==> cases[k] == Amx.Case(p.cell(t + 12 + 8 * k), Int(Sub(p.cell(t + 16 + 8 * k), p.base)))
  }

  /** A native function by a constant index is called by its address when that is known and direct
      calls are on. */
  predicate NativeCells(p: Program, i: Instruction, n: Amx.NativeCall) {
    match n
    case ByPri => Alone(i, 122)
    case ByIndex(k) => With(i, 123, k) && p.named(k) && !(p.direct && p.address(k) != 0)
    case ByAddress(a) =>
      || (With(i, 135, a) && p.registered(a))
      || (i.opcode == 123 && |i.operands| == 1 && p.named(i.operands[0]) && p.direct && a == p.address(i.operands[0]) != 0)
  }

  ghost predicate ControlCells(p: Program, i: Instruction, op: Amx.ControlOp) {
    match op
    case Ret => Alone(i, 47)
    case Retn => Alone(i, 48)
    case Call(d) => To(p, i, 49, d)
    case Jump(d) => To(p, i, 51, d)
    case JZer(d) => To(p, i, 53, d)
    case JNz(d) => To(p, i, 54, d)
    case JRel(r, d) => To(p, i, 55 + Rank(r), d)
    case JumpPri => Alone(i, 128)
    case SetCip => With(i, 32, 6)
    case CodePtr => With(i, 31, 8)
    case JumpPtr => With(i, 32, 8)
    case Halt(v) => With(i, 120, v)
    case Bounds(v) => With(i, 121, v)
    case Switch(cases, d) => i.opcode == 129 && |i.operands| == 1 && TableCells(p, Int(Sub(i.operands[0], p.base)), cases, d)
    case Sysreq(n) => NativeCells(p, i, n)
  }

  /** The cells of an instruction stand for an operation. */
  ghost predicate StandsFor(p: Program, i: Instruction, op: Amx.Op) {
    match op
    case Mem(o) => MemCells(i, o)
    case Acc(o) => AccCells(i, o)
    case Stk(o) => StackCells(i, o)
    case Blk(o) => BlockCells(i, o)
    case Ctl(o) => ControlCells(p, i, o)
    case CaseTbl => i.opcode == 130
    case Nop => Alone(i, 134)
    case Break => Alone(i, 137)
  }

  lemma ToIs(p: Program, v: Word, d: int)
    ensures d == Relative(p, v) <==> -HALF <= d < HALF && v == Wrap(p.base + d)
  {
    var r := Relative(p, v);
    assert v == Wrap(p.base + r) by {
      var s := Sub(v, p.base);
      assert s == v - p.base || s == v - p.base + M;
      assert r == s || r == s - M;
      if r == v - p.base { WrapUnique(p.base + r, v, 0); }
      else if r == v - p.base + M { WrapUnique(p.base + r, v, 1); }
      else { WrapUnique(p.base + r, v, -1); }
    }
    if -HALF <= d < HALF && v == Wrap(p.base + d) {
      var q := (p.base + d) / M;
      assert p.base + d == q * M + v;
      var q2 := (p.base + r) / M;
      assert p.base + r == q2 * M + v;
      assert d - r == (q - q2) * M;
    }
  }

  // ---- what stands for what, opcode by opcode ------------------------------------------------

  lemma Simple0(p: Program, i: Instruction, op: Amx.Op)
    requires |i.operands| == 1 && 0 <= i.opcode < 11
    ensures Simple(i.opcode, i.operands[0]) == Some(op) ==> StandsFor(p, i, op)
  {
  }

  lemma Simple11(p: Program, i: Instruction, op: Amx.Op)
    requires |i.operands| == 1 && 11 <= i.opcode < 20
    ensures Simple(i.opcode, i.operands[0]) == Some(op) ==> StandsFor(p, i, op)
  {
  }

  lemma Simple20(p: Program, i: Instruction, op: Amx.Op)
    requires |i.operands| == 1 && 20 <= i.opcode < 31
    ensures Simple(i.opcode, i.operands[0]) == Some(op) ==> StandsFor(p, i, op)
  {
  }

  lemma Simple31(p: Program, i: Instruction, op: Amx.Op)
    requires |i.operands| == 1 && 31 <= i.opcode < 45
    ensures Simple(i.opcode, i.operands[0]) == Some(op) ==> StandsFor(p, i, op)
  {
  }

  lemma Simple45(p: Program, i: Instruction, op: Amx.Op)
    requires |i.operands| == 1 && 45 <= i.opcode < 92
    ensures Simple(i.opcode, i.operands[0]) == Some(op) ==> StandsFor(p, i, op)
  {
  }

  lemma Simple92(p: Program, i: Instruction, op: Amx.Op)
    requires |i.operands| == 1 && 92 <= i.opcode < 115
    ensures Simple(i.opcode, i.operands[0]) == Some(op) ==> StandsFor(p, i, op)
  {
  }

  lemma Simple115(p: Program, i: Instruction, op: Amx.Op)
    requires |i.operands| == 1 && 115 <= i.opcode < 200
    ensures Simple(i.opcode, i.operands[0]) == Some(op) ==> StandsFor(p, i, op)
  {
  }

  lemma Without0(p: Program, i: Instruction, op: Amx.Op)
    requires |i.operands| == 0 && 0 <= i.opcode < 36
    ensures WithoutOperand(i.opcode) == Some(op) ==> StandsFor(p, i, op)
  {
  }

  lemma Without36(p: Program, i: Instruction, op: Amx.Op)
    requires |i.operands| == 0 && 36 <= i.opcode < 65
    ensures WithoutOperand(i.opcode) == Some(op) ==> StandsFor(p, i, op)
  {
  }

  lemma Without65(p: Program, i: Instruction, op: Amx.Op)
    requires |i.operands| == 0 && 65 <= i.opcode < 78
    ensures WithoutOperand(i.opcode) == Some(op) ==> StandsFor(p, i, op)
  {
  }

  lemma Without78(p: Program, i: Instruction, op: Amx.Op)
    requires |i.operands| == 0 && 78 <= i.opcode < 95
    ensures WithoutOperand(i.opcode) == Some(op) ==> StandsFor(p, i, op)
  {
  }

  lemma Without95(p: Program, i: Instruction, op: Amx.Op)
    requires |i.operands| == 0 && 95 <= i.opcode < 112
    ensures WithoutOperand(i.opcode) == Some(op) ==> StandsFor(p, i, op)
  {
  }

  lemma Without112(p: Program, i: Instruction, op: Amx.Op)
    requires |i.operands| == 0 && 112 <= i.opcode < 200
    ensures WithoutOperand(i.opcode) == Some(op) ==> StandsFor(p, i, op)
  {
  }

  lemma Jumps(p: Program, i: Instruction, op: Amx.Op)
    requires |i.operands| == 1 && 49 <= i.opcode <= 64
    ensures Jumping(p, i.opcode, Relative(p, i.operands[0])) == Some(op) ==> StandsFor(p, i, op)
  {
    hide Relative;
    ToIs(p, i.operands[0], Relative(p, i.operands[0]));
  }

  lemma Natives(p: Program, i: Instruction, op: Amx.Op)
    requires |i.operands| == 1 && (i.opcode == 123 || i.opcode == 135)
    ensures Calling(p, i.opcode, i.operands[0]) == Some(op) ==> StandsFor(p, i, op)
  {
    hide Records;
  }

  lemma Switches(p: Program, i: Instruction, op: Amx.Op)
    requires |i.operands| == 1 && i.opcode == 129
    ensures Calling(p, i.opcode, i.operands[0]) == Some(op) <==> StandsFor(p, i, op)
  {
    var t := Int(Sub(i.operands[0], p.base));
    TableIs(p, i.operands[0], t);
    hide Records, TableCells;
    if op.Ctl? && op.ctl.Switch? && TableCells(p, t, op.ctl.cases, op.ctl.default) { OneTable(p, i.operands[0], t, op.ctl.cases, op.ctl.default); }
  }

  lemma TableIs(p: Program, v: Word, t: int)
    requires t == Int(Sub(v, p.base))
    ensures Records(p, v).Some? ==> |Records(p, v).value| > 0 && TableCells(p, t, Records(p, v).value[1..], Records(p, v).value[0].address)
  {
  }

  lemma OneTable(p: Program, v: Word, t: int, cases: seq<Amx.Case>, default: int)
    requires t == Int(Sub(v, p.base)) && TableCells(p, t, cases, default)
    ensures Records(p, v).Some? && |Records(p, v).value| > 0 && Records(p, v).value[1..] == cases && Records(p, v).value[0].address == default
  {
    var q := Records(p, v).value;
    assert |q| == |cases| + 1;
    forall k | 0 <= k < |cases|
      ensures q[1..][k] == cases[k]
    {
    }
  }

  /** Whatever the compiler takes an instruction for, its cells stand for. */
  lemma OperationStands(p: Program, i: Instruction, op: Amx.Op)
    requires Operation(p, i) == Some(op)
    ensures StandsFor(p, i, op)
  {
    hide Simple, WithoutOperand, Jumping, Calling, MemCells, AccCells, StackCells, BlockCells, ControlCells;
    var id := i.opcode;
    if id == CASETBL {
    } else if |i.operands| == 0 {
      if id < 36 { Without0(p, i, op); } else if id < 65 { Without36(p, i, op); } else if id < 78 { Without65(p, i, op); } else if id < 95 { Without78(p, i, op); } else if id < 112 { Without95(p, i, op); } else if id < 200 { Without112(p, i, op); } else { Beyond(p, i); }
    } else if 49 <= id <= 64 {
      Jumps(p, i, op);
    } else if id == 129 {
      Switches(p, i, op);
    } else if id == 123 || id == 135 {
      Natives(p, i, op);
    } else {
      if id < 11 { Simple0(p, i, op); } else if id < 20 { Simple11(p, i, op); } else if id < 31 { Simple20(p, i, op); } else if id < 45 { Simple31(p, i, op); } else if id < 92 { Simple45(p, i, op); } else if id < 115 { Simple92(p, i, op); } else if id < 200 { Simple115(p, i, op); } else { Beyond(p, i); }
    }
  }

  /** There are no opcodes from 200 on. */
  lemma Beyond(p: Program, i: Instruction)
    requires i.opcode >= 200
    ensures Operation(p, i).None?
  {
  }

  // ---- and nothing else does ---------------------------------------------------------------

  lemma MemStands(p: Program, i: Instruction, op: Amx.MemOp)
    requires MemCells(i, op)
    ensures Operation(p, i) == Some(Amx.Mem(op))
  {
    hide MemCells, Operation;
    if |i.operands| == 0 { MemAlone(p, i, op); } else if i.opcode < 19 { MemLow(p, i, op); } else { MemHigh(p, i, op); }
  }

  lemma MemAlone(p: Program, i: Instruction, op: Amx.MemOp)
    requires MemCells(i, op) && |i.operands| == 0
    ensures Operation(p, i) == Some(Amx.Mem(op))
  {
    hide WithOperand;
  }

  lemma MemLow(p: Program, i: Instruction, op: Amx.MemOp)
    requires MemCells(i, op) && |i.operands| > 0 && i.opcode < 19
    ensures Operation(p, i) == Some(Amx.Mem(op))
  {
    hide WithoutOperand, Jumping, Calling;
  }

  lemma MemHigh(p: Program, i: Instruction, op: Amx.MemOp)
    requires MemCells(i, op) && |i.operands| > 0 && i.opcode >= 19
    ensures Operation(p, i) == Some(Amx.Mem(op))
  {
    hide WithoutOperand, Jumping, Calling;
  }

  lemma AccStands(p: Program, i: Instruction, op: Amx.AccOp)
    requires AccCells(i, op)
    ensures Operation(p, i) == Some(Amx.Acc(op))
  {
    hide Jumping, Calling;
    if |i.operands| == 0 { AloneStands(p, i, op); } else { hide WithoutOperand; }
  }

  lemma AloneStands(p: Program, i: Instruction, op: Amx.AccOp)
    requires AccCells(i, op) && |i.operands| == 0
    ensures Operation(p, i) == Some(Amx.Acc(op))
  {
    hide WithOperand;
  }

  lemma StackStands(p: Program, i: Instruction, op: Amx.StackOp)
    requires StackCells(i, op)
    ensures Operation(p, i) == Some(Amx.Stk(op))
  {
    hide Jumping, Calling;
  }

  lemma BlockStands(p: Program, i: Instruction, op: Amx.BlockOp)
    requires BlockCells(i, op)
    ensures Operation(p, i) == Some(Amx.Blk(op))
  {
    hide Jumping, Calling;
  }

  lemma ControlStands(p: Program, i: Instruction, op: Amx.ControlOp)
    requires ControlCells(p, i, op)
    ensures Operation(p, i) == Some(Amx.Ctl(op))
  {
    if op.Switch? {
      Switches(p, i, Amx.Ctl(op));
    } else if op.Call? || op.Jump? || op.JZer? || op.JNz? || op.JRel? {
      JumpStands(p, i, op);
    } else {
      OtherStands(p, i, op);
    }
  }

  lemma JumpStands(p: Program, i: Instruction, op: Amx.ControlOp)
    requires ControlCells(p, i, op) && (op.Call? || op.Jump? || op.JZer? || op.JNz? || op.JRel?)
    ensures Operation(p, i) == Some(Amx.Ctl(op))
  {
    hide Simple, WithoutOperand, Calling, Relative, TableCells;
    ToIs(p, i.operands[0], op.dest);
  }

  lemma OtherStands(p: Program, i: Instruction, op: Amx.ControlOp)
    requires ControlCells(p, i, op) && !(op.Call? || op.Jump? || op.JZer? || op.JNz? || op.JRel? || op.Switch?)
    ensures Operation(p, i) == Some(Amx.Ctl(op))
  {
    hide Jumping, Records, TableCells;
  }

  /** An instruction is taken for exactly what its cells stand for. */
  lemma OperationExact(p: Program, i: Instruction, op: Amx.Op)
    ensures Operation(p, i) == Some(op) <==> StandsFor(p, i, op)
  {
    hide Operation, MemCells, AccCells, StackCells, BlockCells, ControlCells;
    if Operation(p, i) == Some(op) { OperationStands(p, i, op); }
    if StandsFor(p, i, op) {
      match op
      case Mem(o) => MemStands(p, i, o);
      case Acc(o) => AccStands(p, i, o);
      case Stk(o) => StackStands(p, i, o);
      case Blk(o) => BlockStands(p, i, o);
      case Ctl(o) => ControlStands(p, i, o);
      case CaseTbl => RestStands(p, i, op);
      case Nop => RestStands(p, i, op);
      case Break => RestStands(p, i, op);
    }
  }

  lemma RestStands(p: Program, i: Instruction, op: Amx.Op)
    requires StandsFor(p, i, op) && (op.CaseTbl? || op.Nop? || op.Break?)
    ensures Operation(p, i) == Some(op)
  {
    hide WithOperand;
  }

  // ---- decoding ------------------------------------------------------------------------------

  /** The cells at an address are those of an instruction with at most one operand. */
  predicate CellsAt(p: Program, i: Instruction) {
    i.opcode == p.cell(i.address) && (i.operands == [] || i.operands == [p.cell(i.address + 4)])
  }

  /** Whatever stands for an operation is decoded, with the operands it has. */
  lemma Decoded(p: Program, i: Instruction, op: Amx.Op)
    requires StandsFor(p, i, op) && !op.CaseTbl? && CellsAt(p, i)
    ensures InstructionAt(p, i.address) == Some(i)
  {
    hide MemCells, AccCells, StackCells, BlockCells, ControlCells;
    match op
    case Mem(o) => MemCounts(i, o); Counted(p, i);
    case Acc(o) => AccCounts(i, o); Counted(p, i);
    case Stk(o) => StackCounts(i, o); Counted(p, i);
    case Blk(o) => BlockCounts(i, o); Counted(p, i);
    case Ctl(o) => ControlCounts(p, i, o); Counted(p, i);
    case Nop => Counted(p, i);
    case Break => Counted(p, i);
  }

  predicate Count(i: Instruction) {
    if |i.operands| == 1 then OneOperand(i.opcode) else |i.operands| == 0 && !OneOperand(i.opcode) && NoOperand(i.opcode)
  }

  lemma Counted(p: Program, i: Instruction)
    requires Count(i) && CellsAt(p, i)
    ensures InstructionAt(p, i.address) == Some(i)
  {
    if |i.operands| == 1 { assert Cells(p, i.address + 4, 1) == i.operands; } else { assert Cells(p, i.address + 4, 0) == i.operands; }
  }

  lemma MemCounts(i: Instruction, op: Amx.MemOp)
    requires MemCells(i, op)
    ensures Count(i)
  {
  }

  lemma AccCounts(i: Instruction, op: Amx.AccOp)
    requires AccCells(i, op)
    ensures Count(i)
  {
  }

  lemma StackCounts(i: Instruction, op: Amx.StackOp)
    requires StackCells(i, op)
    ensures Count(i)
  {
  }

  lemma BlockCounts(i: Instruction, op: Amx.BlockOp)
    requires BlockCells(i, op)
    ensures Count(i)
  {
  }

  lemma ControlCounts(p: Program, i: Instruction, op: Amx.ControlOp)
    requires ControlCells(p, i, op)
    ensures Count(i)
  {
    hide TableCells, Wrap;
  }
}
