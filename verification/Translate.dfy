/** The instruction an opcode stands for, with its operand in the machine's terms. */
module Translate {
  import opened Word32
  import Amx
  import opened Disasm

  const PROC: Word := 46

  /** None for opcodes that decode but that the compiler refuses, for calls of natives without
      a name, and for tables without a default. */
  function Operation(p: Program, i: Instruction): Option<Amx.Op> {
    if |i.operands| == 1 && i.opcode != CASETBL then WithOperand(p, i.opcode, i.operands[0])
    else if |i.operands| == 0 && i.opcode != CASETBL then WithoutOperand(i.opcode)
    else if i.opcode == CASETBL then Some(Amx.CaseTbl)
    else None
  }

  function WithoutOperand(id: Word): Option<Amx.Op> {
    match id
    case 9 => Some(Amx.Mem(Amx.LoadI))
    case 23 => Some(Amx.Mem(Amx.StorI))
    case 25 => Some(Amx.Mem(Amx.Lidx))
    case 27 => Some(Amx.Mem(Amx.IdxAddr))
    case 33 => Some(Amx.Acc(Amx.Move(Amx.PRI)))
    case 34 => Some(Amx.Acc(Amx.Move(Amx.ALT)))
    case 35 => Some(Amx.Acc(Amx.Exchange))
    case 36 => Some(Amx.Stk(Amx.PushAcc(Amx.PRI)))
    case 37 => Some(Amx.Stk(Amx.PushAcc(Amx.ALT)))
    case 42 => Some(Amx.Stk(Amx.PopAcc(Amx.PRI)))
    case 43 => Some(Amx.Stk(Amx.PopAcc(Amx.ALT)))
    case 46 => Some(Amx.Stk(Amx.Proc))
    case 47 => Some(Amx.Ctl(Amx.Ret))
    case 48 => Some(Amx.Ctl(Amx.Retn))
    case 65 => Some(Amx.Acc(Amx.ShiftAlt(Amx.Shl)))
    case 66 => Some(Amx.Acc(Amx.ShiftAlt(Amx.Shr)))
    case 67 => Some(Amx.Acc(Amx.ShiftAlt(Amx.Sshr)))
    case 72 => Some(Amx.Acc(Amx.SMul))
    case 73 => Some(Amx.Acc(Amx.SDiv))
    case 74 => Some(Amx.Acc(Amx.SDivAlt))
    case 75 => Some(Amx.Acc(Amx.UMul))
    case 76 => Some(Amx.Acc(Amx.UDiv))
    case 77 => Some(Amx.Acc(Amx.UDivAlt))
    case 78 => Some(Amx.Acc(Amx.Binary(Amx.AddB)))
    case 79 => Some(Amx.Acc(Amx.Binary(Amx.SubB)))
    case 80 => Some(Amx.Acc(Amx.Binary(Amx.SubAltB)))
    case 81 => Some(Amx.Acc(Amx.Binary(Amx.AndB)))
    case 82 => Some(Amx.Acc(Amx.Binary(Amx.OrB)))
    case 83 => Some(Amx.Acc(Amx.Binary(Amx.XorB)))
    case 84 => Some(Amx.Acc(Amx.Unary(Amx.NotU)))
    case 85 => Some(Amx.Acc(Amx.Unary(Amx.NegU)))
    case 86 => Some(Amx.Acc(Amx.Unary(Amx.InvertU)))
    case 89 => Some(Amx.Acc(Amx.Zero(Amx.PRI)))
    case 90 => Some(Amx.Acc(Amx.Zero(Amx.ALT)))
    case 93 => Some(Amx.Acc(Amx.Sign(Amx.PRI)))
    case 94 => Some(Amx.Acc(Amx.Sign(Amx.ALT)))
    case 95 => Some(Amx.Acc(Amx.Compare(Amx.Eq)))
    case 96 => Some(Amx.Acc(Amx.Compare(Amx.Neq)))
    case 97 => Some(Amx.Acc(Amx.Compare(Amx.Less)))
    case 98 => Some(Amx.Acc(Amx.Compare(Amx.Leq)))
    case 99 => Some(Amx.Acc(Amx.Compare(Amx.Grtr)))
    case 100 => Some(Amx.Acc(Amx.Compare(Amx.Geq)))
    case 101 => Some(Amx.Acc(Amx.Compare(Amx.SLess)))
    case 102 => Some(Amx.Acc(Amx.Compare(Amx.SLeq)))
    case 103 => Some(Amx.Acc(Amx.Compare(Amx.SGrtr)))
    case 104 => Some(Amx.Acc(Amx.Compare(Amx.SGeq)))
    case 107 => Some(Amx.Acc(Amx.IncAcc(Amx.PRI)))
    case 108 => Some(Amx.Acc(Amx.IncAcc(Amx.ALT)))
    case 111 => Some(Amx.Mem(Amx.IncI))
    case 112 => Some(Amx.Acc(Amx.DecAcc(Amx.PRI)))
    case 113 => Some(Amx.Acc(Amx.DecAcc(Amx.ALT)))
    case 116 => Some(Amx.Mem(Amx.DecI))
    case 122 => Some(Amx.Ctl(Amx.Sysreq(Amx.ByPri)))
    case 128 => Some(Amx.Ctl(Amx.JumpPri))
    case 131 => Some(Amx.Stk(Amx.Swap(Amx.PRI)))
    case 132 => Some(Amx.Stk(Amx.Swap(Amx.ALT)))
    case 134 => Some(Amx.Nop)
    case 137 => Some(Amx.Break)
    case _ => None
  }

  function WithOperand(p: Program, id: Word, v: Word): Option<Amx.Op> {
    if 49 <= id <= 64 then Jumping(p, id, Relative(p, v))
    else if id == 123 || id == 129 || id == 135 then Calling(p, id, v)
    else Simple(id, v)
  }

  /** Operands of jumps and calls are memory addresses. */
  function Jumping(p: Program, id: Word, d: int): Option<Amx.Op> {
    match id
    case 49 => Some(Amx.Ctl(Amx.Call(d)))
    case 51 => Some(Amx.Ctl(Amx.Jump(d)))
    case 53 => Some(Amx.Ctl(Amx.JZer(d)))
    case 54 => Some(Amx.Ctl(Amx.JNz(d)))
    case 55 => Some(Amx.Ctl(Amx.JRel(Amx.Eq, d)))
    case 56 => Some(Amx.Ctl(Amx.JRel(Amx.Neq, d)))
    case 57 => Some(Amx.Ctl(Amx.JRel(Amx.Less, d)))
    case 58 => Some(Amx.Ctl(Amx.JRel(Amx.Leq, d)))
    case 59 => Some(Amx.Ctl(Amx.JRel(Amx.Grtr, d)))
    case 60 => Some(Amx.Ctl(Amx.JRel(Amx.Geq, d)))
    case 61 => Some(Amx.Ctl(Amx.JRel(Amx.SLess, d)))
    case 62 => Some(Amx.Ctl(Amx.JRel(Amx.SLeq, d)))
    case 63 => Some(Amx.Ctl(Amx.JRel(Amx.SGrtr, d)))
    case 64 => Some(Amx.Ctl(Amx.JRel(Amx.SGeq, d)))
    case _ => None
  }

  /** The operand of SYSREQ.C is an index, that of SYSREQ.D an address, that of SWITCH the
      address of a table. */
  function Calling(p: Program, id: Word, v: Word): Option<Amx.Op> {
    if id == 129 then
      var records :- Records(p, v);
      Some(Amx.Ctl(Amx.Switch(records[1..], records[0].address)))
    else if id == 135 then
      if p.registered(v) then Some(Amx.Ctl(Amx.Sysreq(Amx.ByAddress(v)))) else None
    else if !p.named(v) then None
    else if p.direct && p.address(v) != 0 then Some(Amx.Ctl(Amx.Sysreq(Amx.ByAddress(p.address(v)))))
    else Some(Amx.Ctl(Amx.Sysreq(Amx.ByIndex(v))))
  }

  function Simple(id: Word, v: Word): Option<Amx.Op> {
    match id
    case 1 => Some(Amx.Mem(Amx.Load(Amx.PRI, Amx.Abs, v)))
    case 2 => Some(Amx.Mem(Amx.Load(Amx.ALT, Amx.Abs, v)))
    case 3 => Some(Amx.Mem(Amx.Load(Amx.PRI, Amx.Frm, v)))
    case 4 => Some(Amx.Mem(Amx.Load(Amx.ALT, Amx.Frm, v)))
    case 5 => Some(Amx.Mem(Amx.LRef(Amx.PRI, Amx.Abs, v)))
    case 6 => Some(Amx.Mem(Amx.LRef(Amx.ALT, Amx.Abs, v)))
    case 7 => Some(Amx.Mem(Amx.LRef(Amx.PRI, Amx.Frm, v)))
    case 8 => Some(Amx.Mem(Amx.LRef(Amx.ALT, Amx.Frm, v)))
    case 10 => Some(Amx.Mem(Amx.LodbI(v)))
    case 11 => Some(Amx.Mem(Amx.Const(Amx.PRI, v)))
    case 12 => Some(Amx.Mem(Amx.Const(Amx.ALT, v)))
    case 13 => Some(Amx.Mem(Amx.Addr(Amx.PRI, v)))
    case 14 => Some(Amx.Mem(Amx.Addr(Amx.ALT, v)))
    case 15 => Some(Amx.Mem(Amx.Stor(Amx.PRI, Amx.Abs, v)))
    case 16 => Some(Amx.Mem(Amx.Stor(Amx.ALT, Amx.Abs, v)))
    case 17 => Some(Amx.Mem(Amx.Stor(Amx.PRI, Amx.Frm, v)))
    case 18 => Some(Amx.Mem(Amx.Stor(Amx.ALT, Amx.Frm, v)))
    case 19 => Some(Amx.Mem(Amx.SRef(Amx.PRI, Amx.Abs, v)))
    case 20 => Some(Amx.Mem(Amx.SRef(Amx.ALT, Amx.Abs, v)))
    case 21 => Some(Amx.Mem(Amx.SRef(Amx.PRI, Amx.Frm, v)))
    case 22 => Some(Amx.Mem(Amx.SRef(Amx.ALT, Amx.Frm, v)))
    case 24 => Some(Amx.Mem(Amx.StrbI(v)))
    case 26 => Some(Amx.Mem(Amx.LidxB(v)))
    case 28 => Some(Amx.Mem(Amx.IdxAddrB(v)))
    case 29 => Some(Amx.Acc(Amx.Align(Amx.PRI, v)))
    case 30 => Some(Amx.Acc(Amx.Align(Amx.ALT, v)))
    case 31 => Some(if v == 8 then Amx.Ctl(Amx.CodePtr) else Amx.Stk(Amx.LCtrl(v)))
    case 32 => Some(if v == 6 then Amx.Ctl(Amx.SetCip) else if v == 8 then Amx.Ctl(Amx.JumpPtr) else Amx.Stk(Amx.SCtrl(v)))
    case 39 => Some(Amx.Stk(Amx.PushC(v)))
    case 40 => Some(Amx.Stk(Amx.PushM(Amx.Abs, v)))
    case 41 => Some(Amx.Stk(Amx.PushM(Amx.Frm, v)))
    case 44 => Some(Amx.Stk(Amx.Stack(v)))
    case 45 => Some(Amx.Stk(Amx.Heap(v)))
    case 68 => Some(Amx.Acc(Amx.ShiftC(Amx.Shl, Amx.PRI, v)))
    case 69 => Some(Amx.Acc(Amx.ShiftC(Amx.Shl, Amx.ALT, v)))
    case 70 => Some(Amx.Acc(Amx.ShiftC(Amx.Shr, Amx.PRI, v)))
    case 71 => Some(Amx.Acc(Amx.ShiftC(Amx.Shr, Amx.ALT, v)))
    case 87 => Some(Amx.Acc(Amx.AddC(v)))
    case 88 => Some(Amx.Acc(Amx.SMulC(v)))
    case 91 => Some(Amx.Mem(Amx.ZeroM(Amx.Abs, v)))
    case 92 => Some(Amx.Mem(Amx.ZeroM(Amx.Frm, v)))
    case 105 => Some(Amx.Acc(Amx.EqC(Amx.PRI, v)))
    case 106 => Some(Amx.Acc(Amx.EqC(Amx.ALT, v)))
    case 109 => Some(Amx.Mem(Amx.IncM(Amx.Abs, v)))
    case 110 => Some(Amx.Mem(Amx.IncM(Amx.Frm, v)))
    case 114 => Some(Amx.Mem(Amx.DecM(Amx.Abs, v)))
    case 115 => Some(Amx.Mem(Amx.DecM(Amx.Frm, v)))
    case 117 => Some(Amx.Blk(Amx.Movs(v)))
    case 118 => Some(Amx.Blk(Amx.Cmps(v)))
    case 119 => Some(Amx.Blk(Amx.Fill(v)))
    case 120 => Some(Amx.Ctl(Amx.Halt(v)))
    case 121 => Some(Amx.Ctl(Amx.Bounds(v)))
    case 133 => Some(Amx.Stk(Amx.PushAdr(v)))
    case _ => None
  }
}
