/** The x86 sequence the compiler emits for one AMX instruction, and the helper routines
    that surround the compiled code. */
module Emit {
  import opened Word32
  import opened X86
  import Amx

  /** PRI lives in eax, ALT in ecx. */
  function RegOf(r: Amx.Acc): Reg { if r.PRI? then EAX else ECX }

  /** Data is addressed from ebx, the frame from ebp. */
  function Place(m: Amx.Mode, off: Word): Mem {
    At(if m.Abs? then EBX else EBP, off)
  }

  function CondOf(r: Amx.Rel): Cond {
    match r
    case Eq => E
    case Neq => NE
    case Less => B
    case Leq => BE
    case Grtr => A
    case Geq => AE
    case SLess => L
    case SLeq => LE
    case SGrtr => G
    case SGeq => GE
  }

  function ShiftOf(k: Amx.ShiftKind): ShiftOp {
    match k
    case Shl => ShlOp
    case Shr => ShrOp
    case Sshr => SarOp
  }

  /** Adds a signed constant by add or by sub of its negation. */
  function AddConst(d: Opd, v: Word): Insn {
    if Int(v) >= 0 then Alu(AddOp, d, I(v)) else Alu(SubOp, d, I(Neg(v)))
  }

  /** eax / ecx: truncated quotient to eax, remainder of (remainder + divisor) to ecx. */
  const DIVIDE: seq<Insn> :=
    [Cdq, IDiv(ECX), Mov(R(ESI), R(EAX)), Lea(EAX, Index(EDX, ECX, 0)), Cdq, IDiv(ECX),
     Mov(R(ECX), R(EDX)), Mov(R(EAX), R(ESI))]

  const UDIVIDE: seq<Insn> :=
    [Alu(XorOp, R(EDX), R(EDX)), Div(ECX), Mov(R(ECX), R(EDX))]

  function MovsBody(n: Word): seq<Insn> {
    if n % 4 == 0 then [Mov(R(ECX), I(n / 4)), RepMovs(4)]
    else if n % 2 == 0 then [Mov(R(ECX), I(n / 2)), RepMovs(2)]
    else [Mov(R(ECX), I(n)), RepMovs(1)]
  }

  /** Compare and jump, one pair a case. */
  function CaseChain(cases: seq<Amx.Case>): seq<Insn> {
    if |cases| == 0 then []
    else [Cmp(EAX, I(cases[0].value)), Jcc(E, ToCode(cases[0].address))] + CaseChain(cases[1..])
  }

  function MinCase(cases: seq<Amx.Case>): (v: Word)
    requires |cases| > 0
    ensures forall k :: 0 <= k < |cases| ==> Int(v) <= Int(cases[k].value)
    ensures exists k :: 0 <= k < |cases| && v == cases[k].value
  {
    if |cases| == 1 then cases[0].value
    else
      var v := MinCase(cases[..|cases| - 1]);
      if Int(cases[|cases| - 1].value) < Int(v) then cases[|cases| - 1].value else v
  }

  function MaxCase(cases: seq<Amx.Case>): (v: Word)
    requires |cases| > 0
    ensures forall k :: 0 <= k < |cases| ==> Int(v) >= Int(cases[k].value)
    ensures exists k :: 0 <= k < |cases| && v == cases[k].value
  {
    if |cases| == 1 then cases[0].value
    else
      var v := MaxCase(cases[..|cases| - 1]);
      if Int(cases[|cases| - 1].value) > Int(v) then cases[|cases| - 1].value else v
  }

  function SwitchCode(cases: seq<Amx.Case>, default: int): seq<Insn> {
    (if |cases| > 0 then
       [Cmp(EAX, I(MinCase(cases))), Jcc(L, ToCode(default)),
        Cmp(EAX, I(MaxCase(cases))), Jcc(G, ToCode(default))] + CaseChain(cases)
     else [])
    + [Jmp(ToCode(default))]
  }

  function LCtrlCode(next: int, k: Word): seq<Insn> {
    if k == 0 then [Mov(R(EAX), Mm(Rib(RibAmx))), Mov(R(EAX), Mm(Amx(EAX, ABase))), Mov(R(EAX), Mm(Hdr(EAX, HCod)))]
    else if k == 1 then [Mov(R(EAX), Mm(Rib(RibAmx))), Mov(R(EAX), Mm(Amx(EAX, ABase))), Mov(R(EAX), Mm(Hdr(EAX, HDat)))]
    else if k == 2 then [Mov(R(EAX), Mm(Rib(RibAmx))), Mov(R(EAX), Mm(Amx(EAX, AHea)))]
    else if k == 3 then [Mov(R(EAX), Mm(Rib(RibAmx))), Mov(R(EAX), Mm(Amx(EAX, AStp)))]
    else if k == 4 then [Mov(R(EAX), R(ESP)), Alu(SubOp, R(EAX), R(EBX))]
    else if k == 5 then [Mov(R(EAX), R(EBP)), Alu(SubOp, R(EAX), R(EBX))]
    else if k == 6 then [Mov(R(EAX), I(Wrap(next)))]
    else if k == 7 then [Mov(R(EAX), I(1))]
    else []
  }

  function SCtrlCode(k: Word): seq<Insn> {
    if k == 2 then [Mov(R(EDX), Mm(Rib(RibAmx))), Mov(Mm(Amx(EDX, AHea)), R(EAX))]
    else if k == 4 then [Lea(ESP, Index(EBX, EAX, 0))]
    else if k == 5 then [Lea(EBP, Index(EBX, EAX, 0))]
    else []
  }

  const RETN: seq<Insn> :=
    [Pop(R(EBP)), Alu(AddOp, R(EBP), R(EBX)), Pop(R(EDX)),
     Alu(AddOp, R(ESP), Mm(At(ESP, 0))), Alu(AddOp, R(ESP), I(4)),
     Mov(R(ESI), Mm(Rib(RibAmx))), Mov(R(EDI), R(ESP)), Alu(SubOp, R(EDI), R(EBX)),
     Mov(Mm(Amx(ESI, AStk)), R(EDI)), Push(R(EDX)), Ret]

  function MemCode(op: Amx.MemOp): seq<Insn> {
    match op
    case Load(r, m, o) => [Mov(R(RegOf(r)), Mm(Place(m, o)))]
    case LRef(r, m, o) => [Mov(R(EDX), Mm(Place(m, o))), Mov(R(RegOf(r)), Mm(Index(EBX, EDX, 0)))]
    case LoadI => [Mov(R(EAX), Mm(Index(EBX, EAX, 0)))]
    case LodbI(n) =>
      if n == 1 || n == 2 then [MovZx(EAX, Index(EBX, EAX, 0), n)]
      else if n == 4 then [Mov(R(EAX), Mm(Index(EBX, EAX, 0)))]
      else []
    case Const(r, v) =>
      if v == 0 then [Alu(XorOp, R(RegOf(r)), R(RegOf(r)))] else [Mov(R(RegOf(r)), I(v))]
    case Addr(r, o) => [Lea(RegOf(r), At(EBP, o)), Alu(SubOp, R(RegOf(r)), R(EBX))]
    case Stor(r, m, o) => [Mov(Mm(Place(m, o)), R(RegOf(r)))]
    case SRef(r, m, o) => [Mov(R(EDX), Mm(Place(m, o))), Mov(Mm(Index(EBX, EDX, 0)), R(RegOf(r)))]
    case StorI => [Mov(Mm(Index(EBX, ECX, 0)), R(EAX))]
    case StrbI(n) =>
      if n == 1 || n == 2 then [MovLow(Index(EBX, ECX, 0), EAX, n)]
      else if n == 4 then [Mov(Mm(Index(EBX, ECX, 0)), R(EAX))]
      else []
    case Lidx => [Lea(EDX, Index(EBX, ECX, 0)), Mov(R(EAX), Mm(Index(EDX, EAX, 2)))]
    case LidxB(k) => [Lea(EDX, Index(EBX, ECX, 0)), Mov(R(EAX), Mm(Index(EDX, EAX, k)))]
    case IdxAddr => [Lea(EAX, Index(ECX, EAX, 2))]
    case IdxAddrB(k) => [Lea(EAX, Index(ECX, EAX, k))]
    case ZeroM(m, o) => [Mov(Mm(Place(m, o)), I(0))]
    case IncM(m, o) => [Inc(Mm(Place(m, o)))]
    case IncI => [Inc(Mm(Index(EBX, EAX, 0)))]
    case DecM(m, o) => [Dec(Mm(Place(m, o)))]
    case DecI => [Dec(Mm(Index(EBX, EAX, 0)))]
  }

  function AccCode(op: Amx.AccOp): seq<Insn> {
    match op
    case Align(r, n) => if n < 4 then [Alu(XorOp, R(RegOf(r)), I(4 - n))] else []
    case Move(r) => [if r.PRI? then Mov(R(EAX), R(ECX)) else Mov(R(ECX), R(EAX))]
    case Exchange => [Xchg(R(EAX), ECX)]
    case ShiftAlt(k) => [Shift(ShiftOf(k), EAX, R(ECX))]
    case ShiftC(k, r, v) => [Shift(ShiftOf(k), RegOf(r), I(v % 0x100))]
    case SMul => [IMul1(ECX)]
    case SDiv => DIVIDE
    case SDivAlt => [Xchg(R(EAX), ECX)] + DIVIDE
    case UMul => [Mul1(ECX)]
    case UDiv => UDIVIDE
    case UDivAlt => [Xchg(R(EAX), ECX)] + UDIVIDE
    case Binary(b) => BinaryCode(b)
    case Unary(u) => UnaryCode(u)
    case AddC(v) => [AddConst(R(EAX), v)]
    case SMulC(v) => [IMul2(EAX, I(v))]
    case Zero(r) => [Alu(XorOp, R(RegOf(r)), R(RegOf(r)))]
    case Sign(r) => [SignExtendLow(RegOf(r))]
    case Compare(r) => [Cmp(EAX, R(ECX)), SetCc(CondOf(r), EAX), ZeroExtendLow(EAX)]
    case EqC(r, v) => [Cmp(RegOf(r), I(v)), SetCc(E, EAX), ZeroExtendLow(EAX)]
    case IncAcc(r) => [Inc(R(RegOf(r)))]
    case DecAcc(r) => [Dec(R(RegOf(r)))]
  }

  /** next is the address of the following instruction. */
  function StackCode(op: Amx.StackOp, next: int): seq<Insn> {
    match op
    case PushAcc(r) => [Push(R(RegOf(r)))]
    case PushC(v) => [Push(I(v))]
    case PushM(m, o) => [Push(Mm(Place(m, o)))]
    case PushAdr(o) => [Lea(EDX, At(EBP, o)), Alu(SubOp, R(EDX), R(EBX)), Push(R(EDX))]
    case PopAcc(r) => [Pop(R(RegOf(r)))]
    case Stack(v) => [Mov(R(ECX), R(ESP)), Alu(SubOp, R(ECX), R(EBX)), AddConst(R(ESP), v)]
    case Heap(v) =>
      [Mov(R(EDX), Mm(Rib(RibAmx))), Mov(R(ECX), Mm(Amx(EDX, AHea))), AddConst(Mm(Amx(EDX, AHea)), v)]
    case Proc => [Push(R(EBP)), Mov(R(EBP), R(ESP)), Alu(SubOp, Mm(At(ESP, 0)), R(EBX))]
    case Swap(r) => [Xchg(Mm(At(ESP, 0)), RegOf(r))]
    case LCtrl(k) => LCtrlCode(next, k)
    case SCtrl(k) => SCtrlCode(k)
  }

  const CMPS_PREFIX: seq<Insn> := [Lea(EDI, Index(EBX, EAX, 0)), Lea(ESI, Index(EBX, ECX, 0)), Push(R(ECX))]

  /** The three-way result of CMPS in eax. */
  const CMPS_RESULT: seq<Insn> :=
    [Jcc(A, Skip(2)), Jcc(B, Skip(3)), Jcc(E, Skip(4)),
     Mov(R(EAX), I(1)), Jmp(Skip(3)),
     Mov(R(EAX), I(M - 1)), Jmp(Skip(1)),
     Alu(XorOp, R(EAX), R(EAX))]

  function BlockCode(op: Amx.BlockOp): seq<Insn> {
    match op
    case Movs(n) =>
      [Lea(ESI, Index(EBX, EAX, 0)), Lea(EDI, Index(EBX, ECX, 0)), Push(R(ECX))] + MovsBody(n) + [Pop(R(ECX))]
    case Cmps(n) =>
      CMPS_PREFIX + [Mov(R(ECX), I(n)), RepeCmpsb, Pop(R(ECX))] + CMPS_RESULT
    case Fill(n) =>
      [Lea(EDI, Index(EBX, ECX, 0)), Push(R(ECX)), Mov(R(ECX), I(n / 4)), RepStosd, Pop(R(ECX))]
  }

  function ControlCode(op: Amx.ControlOp): seq<Insn> {
    match op
    case Ret => [Pop(R(EBP)), Alu(AddOp, R(EBP), R(EBX)), X86.Ret]
    case Retn => RETN
    case Call(d) => [X86.Call(ToCode(d))]
    case JumpPri => [X86.Call(ToHelper(JumpHelper))]
    case SetCip => [X86.Call(ToHelper(JumpHelper))]
    case CodePtr => [X86.Call(ToHelper(JumpLookup))]
    case JumpPtr => [JmpReg(EAX)]
    case Jump(d) => [Jmp(ToCode(d))]
    case JZer(d) => [Test(EAX, R(EAX)), Jcc(E, ToCode(d))]
    case JNz(d) => [Test(EAX, R(EAX)), Jcc(NE, ToCode(d))]
    case JRel(r, d) => [Cmp(EAX, R(ECX)), Jcc(CondOf(r), ToCode(d))]
    case Halt(e) => [Mov(R(EDI), I(e)), X86.Call(ToHelper(HaltHelper))]
    case Bounds(v) =>
      [Cmp(EAX, I(v)), Jcc(G, Skip(3)), Test(EAX, R(EAX)), Jcc(L, Skip(1)), Jmp(Skip(2)),
       Mov(R(EDI), I(Amx.AMX_ERR_BOUNDS)), X86.Call(ToHelper(HaltHelper))]
    case Switch(cases, d) => SwitchCode(cases, d)
    case Sysreq(n) => SysreqCode(n)
  }

  function SysreqCode(n: Amx.NativeCall): seq<Insn> {
    match n
    case ByPri => [Push(R(EAX)), X86.Call(ToHelper(SysreqCHelper))]
    case ByIndex(k) => [Push(I(k)), X86.Call(ToHelper(SysreqCHelper))]
    case ByAddress(p) => [Push(I(p)), X86.Call(ToHelper(SysreqDHelper))]
  }

  function Code(i: Amx.Instr): seq<Insn> {
    match i.op
    case Mem(op) => MemCode(op)
    case Acc(op) => AccCode(op)
    case Stk(op) => StackCode(op, i.address + i.size)
    case Blk(op) => BlockCode(op)
    case Ctl(op) => ControlCode(op)
    case CaseTbl => []
    case Nop => []
    case Break => []
  }

  function BinaryCode(b: Amx.Bin): seq<Insn> {
    match b
    case AddB => [Alu(AddOp, R(EAX), R(ECX))]
    case SubB => [Alu(SubOp, R(EAX), R(ECX))]
    case SubAltB => [Alu(SubOp, R(EAX), R(ECX)), NegR(EAX)]
    case AndB => [Alu(AndOp, R(EAX), R(ECX))]
    case OrB => [Alu(OrOp, R(EAX), R(ECX))]
    case XorB => [Alu(XorOp, R(EAX), R(ECX))]
  }

  function UnaryCode(u: Amx.Un): seq<Insn> {
    match u
    case NotU => [Test(EAX, R(EAX)), SetCc(E, EAX), ZeroExtendLow(EAX)]
    case NegU => [NegR(EAX)]
    case InvertU => [NotR(EAX)]
  }

  // ---- helper routines -------------------------------------------------------

  /** Pops its own return address when the table knows the address in eax. */
  const JUMP_HELPER: seq<Insn> :=
    [Push(R(EAX)), Call(ToHelper(JumpLookup)), Mov(R(EDX), R(EAX)), Pop(R(EAX)),
     Test(EDX, R(EDX)), Jcc(E, Skip(2)), Lea(ESP, At(ESP, 4)), JmpReg(EDX), Ret]

  const JUMP_LOOKUP: seq<Insn> :=
    [Push(R(ECX)), Push(R(EDX)), Mov(R(ECX), RibStart), Push(R(ECX)), Push(R(EAX)), CallGetJITInstrPtr,
     Alu(AddOp, R(ESP), I(8)), Pop(R(EDX)), Pop(R(ECX)), Ret]

  const HALT_HELPER: seq<Insn> :=
    [Mov(R(ESI), Mm(Rib(RibAmx))), Mov(Mm(Amx(ESI, AError)), R(EDI)), Mov(Mm(Amx(ESI, APri)), R(EAX)),
     Mov(Mm(Amx(ESI, AAlt)), R(ECX)), Pop(R(ECX)), Mov(R(EDX), R(EBP)), Alu(SubOp, R(EDX), R(EBX)),
     Mov(Mm(Amx(ESI, AFrm)), R(EDX)), Mov(R(EDX), R(ESP)), Alu(SubOp, R(EDX), R(EBX)),
     Mov(Mm(Amx(ESI, AStk)), R(EDX)), Mov(R(ESP), Mm(Rib(RibResetEsp))), Mov(R(EBP), Mm(Rib(RibResetEbp))),
     Jmp(ToHelper(ExecExit))]
}
