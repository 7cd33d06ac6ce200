/** The abstract machine: registers PRI, ALT, FRM, STK, HEA and CIP over one data block
    that holds data, heap and stack. A byte of memory is missing while its content is
    unspecified: below STK, above the heap, or never written. A return address pushed by
    CALL is not an ordinary cell: only RET and RETN may take it back. */
module Amx {
  import opened Word32

  datatype Acc = PRI | ALT

  /** Operand addressing: an absolute data address or an offset from FRM. */
  datatype Mode = Abs | Frm

  datatype Rel = Eq | Neq | Less | Leq | Grtr | Geq | SLess | SLeq | SGrtr | SGeq

  datatype ShiftKind = Shl | Shr | Sshr

  datatype Bin = AddB | SubB | SubAltB | AndB | OrB | XorB

  datatype Un = NotU | NegU | InvertU

  datatype Case = Case(value: Word, address: int)

  /** Loads, stores and address computations. */
  datatype MemOp =
    | Load(acc: Acc, mode: Mode, off: Word)
    | LRef(acc: Acc, mode: Mode, off: Word)
    | LoadI
    | LodbI(n: Word)
    | Const(acc: Acc, v: Word)
    | Addr(acc: Acc, off: Word)
    | Stor(acc: Acc, mode: Mode, off: Word)
    | SRef(acc: Acc, mode: Mode, off: Word)
    | StorI
    | StrbI(n: Word)
    | Lidx
    | LidxB(shift: Word)
    | IdxAddr
    | IdxAddrB(shift: Word)
    | ZeroM(mode: Mode, off: Word)
    | IncM(mode: Mode, off: Word)
    | IncI
    | DecM(mode: Mode, off: Word)
    | DecI

  /** Operations on PRI and ALT alone. */
  datatype AccOp =
    | Align(acc: Acc, n: Word)
    | Move(acc: Acc)
    | Exchange
    | ShiftAlt(kind: ShiftKind)
    | ShiftC(kind: ShiftKind, acc: Acc, v: Word)
    | SMul | SDiv | SDivAlt | UMul | UDiv | UDivAlt
    | Binary(bin: Bin)
    | Unary(un: Un)
    | AddC(v: Word)
    | SMulC(v: Word)
    | Zero(acc: Acc)
    | Sign(acc: Acc)
    | Compare(rel: Rel)
    | EqC(acc: Acc, v: Word)
    | IncAcc(acc: Acc)
    | DecAcc(acc: Acc)

  /** The stack, the heap and the special registers. */
  datatype StackOp =
    | PushAcc(acc: Acc)
    | PushC(v: Word)
    | PushM(mode: Mode, off: Word)
    | PushAdr(off: Word)
    | PopAcc(acc: Acc)
    | Stack(v: Word)
    | Heap(v: Word)
    | Proc
    | Swap(acc: Acc)
    | LCtrl(index: Word)
    | SCtrl(index: Word)

  datatype BlockOp = Movs(bytes: Word) | Cmps(bytes: Word) | Fill(bytes: Word)

  /** A native function by the index in PRI, by a constant index, or by its address. */
  datatype NativeCall = ByPri | ByIndex(index: Word) | ByAddress(address: Word)

  /** SetCip and JumpPtr are SCTRL 6 and 8, CodePtr is LCTRL 8; the other indices of the two are
      stack operations. */
  datatype ControlOp =
    | Ret
    | Retn
    | Call(dest: int)
    | JumpPri
    | SetCip
    | CodePtr
    | JumpPtr
    | Jump(dest: int)
    | JZer(dest: int)
    | JNz(dest: int)
    | JRel(rel: Rel, dest: int)
    | Halt(code: Word)
    | Bounds(v: Word)
    | Switch(cases: seq<Case>, default: int)
    | Sysreq(call: NativeCall)

  datatype Op =
    | Mem(mem: MemOp)
    | Acc(acc: AccOp)
    | Stk(stk: StackOp)
    | Blk(blk: BlockOp)
    | Ctl(ctl: ControlOp)
    | CaseTbl
    | Nop
    | Break

  datatype Instr = Instr(address: int, op: Op, size: int)

  const AMX_ERR_BOUNDS: Word := 4

  /** Plain bytes, and byte k of the return address ret. */
  datatype Val = Byt(b: Byte) | RetByte(ret: int, k: int)

  type Memory = map<int, Val>

  /** cod, dat and stp are constants of the loaded program; size is the length of the data
      block, frame what a C callee needs below STK, and native gives for the address of an
      instruction the address of its native code, for any other 0. */
  datatype Cfg = Cfg(cod: Word, dat: Word, stp: Word, size: int, frame: nat, native: int -> Word)

  datatype State = State(pri: Word, alt: Word, frm: Word, stk: Word, hea: Word, cip: int, mem: Memory)

  /** Next: the following state. Halted: HALT or BOUNDS stopped the run. Done: the entry
      function returned to the host. Stuck: the program left what the machine specifies. */
  datatype Outcome = Next(s: State) | Halted(h: State, error: Word) | Done(d: State) | Stuck

  // ---- memory --------------------------------------------------------------

  function LoadCell(m: Memory, a: int): Option<Word> {
    if a in m && a + 1 in m && a + 2 in m && a + 3 in m
       && m[a].Byt? && m[a + 1].Byt? && m[a + 2].Byt? && m[a + 3].Byt?
    then Some(Join(m[a].b, m[a + 1].b, m[a + 2].b, m[a + 3].b))
    else None
  }

  function StoreCell(cfg: Cfg, m: Memory, a: int, v: Word): Option<Memory> {
    if 0 <= a && a + 4 <= cfg.size
    then Some(m[a := Byt(ByteOf(v, 0))][a + 1 := Byt(ByteOf(v, 1))]
               [a + 2 := Byt(ByteOf(v, 2))][a + 3 := Byt(ByteOf(v, 3))])
    else None
  }

  function StoreRet(cfg: Cfg, m: Memory, a: int, ret: int): Option<Memory> {
    if 0 <= a && a + 4 <= cfg.size
    then Some(m[a := RetByte(ret, 0)][a + 1 := RetByte(ret, 1)][a + 2 := RetByte(ret, 2)][a + 3 := RetByte(ret, 3)])
    else None
  }

  function LoadRet(m: Memory, a: int): Option<int> {
    if a in m && a + 1 in m && a + 2 in m && a + 3 in m && m[a].RetByte?
       && m[a] == RetByte(m[a].ret, 0) && m[a + 1] == RetByte(m[a].ret, 1)
       && m[a + 2] == RetByte(m[a].ret, 2) && m[a + 3] == RetByte(m[a].ret, 3)
    then Some(m[a].ret)
    else None
  }

  /** Forgets the bytes lo..hi-1. */
  function Forget(m: Memory, lo: int, hi: int): Memory {
    map a | a in m && !(lo <= a < hi) :: m[a]
  }

  /** The n bytes below STK lie in the block and hold nothing specified. */
  predicate Room(cfg: Cfg, s: State, n: nat) {
    n <= s.stk <= cfg.size && forall a :: s.stk - n <= a < s.stk ==> a !in s.mem
  }

  predicate PlainBytes(m: Memory, a: int, n: int) {
    forall k :: a <= k < a + n ==> k in m && m[k].Byt?
  }

  // ---- registers -----------------------------------------------------------

  function GetAcc(s: State, r: Acc): Word {
    if r.PRI? then s.pri else s.alt
  }

  function SetAcc(s: State, r: Acc, v: Word): State {
    if r.PRI? then s.(pri := v) else s.(alt := v)
  }

  /** The data address an operand names. */
  function Ea(s: State, m: Mode, off: Word): Word {
    if m.Abs? then off else Add(s.frm, off)
  }

  function PushCell(cfg: Cfg, s: State, v: Word): Option<State> {
    var sp := Sub(s.stk, 4);
    var m :- StoreCell(cfg, s.mem, sp, v);
    Some(s.(stk := sp, mem := m))
  }

  /** Moves STK; the bytes passed over on the way up are no longer specified. */
  function SetStk(s: State, stk: Word): State {
    s.(stk := stk, mem := Forget(s.mem, s.stk, stk))
  }

  // ---- arithmetic ----------------------------------------------------------

  predicate Related(r: Rel, a: Word, b: Word) {
    match r
    case Eq => a == b
    case Neq => a != b
    case Less => a < b
    case Leq => a <= b
    case Grtr => a > b
    case Geq => a >= b
    case SLess => Int(a) < Int(b)
    case SLeq => Int(a) <= Int(b)
    case SGrtr => Int(a) > Int(b)
    case SGeq => Int(a) >= Int(b)
  }

  function BinResult(b: Bin, pri: Word, alt: Word): Word {
    match b
    case AddB => Wrap(pri + alt)
    case SubB => Wrap(pri - alt)
    case SubAltB => Wrap(alt - pri)
    case AndB => And(pri, alt)
    case OrB => Or(pri, alt)
    case XorB => Xor(pri, alt)
  }

  function UnResult(u: Un, pri: Word): Word {
    match u
    case NotU => Bool(pri == 0)
    case NegU => Wrap(0 - (pri as int))
    case InvertU => Wrap(-1 - (pri as int))
  }

  /** Shifts are specified for counts below the cell width. */
  function Shifted(k: ShiftKind, v: Word, count: Word): Option<Word> {
    if count >= 32 then None
    else
      match k
      case Shl => Some(Wrap(v * Pow2(count)))
      case Shr => Some(Wrap(v / Pow2(count)))
      case Sshr => Some(Wrap(Int(v) / Pow2(count)))
  }

  /** Quotient truncated toward zero. */
  function Quotient(n: int, d: int): (q: int)
    requires d != 0
  {
    if (n < 0) == (d < 0) then Magnitude(n) / Magnitude(d) else -(Magnitude(n) / Magnitude(d))
  }

  function Magnitude(x: int): nat { if x < 0 then -x else x }

  /** The residue of n modulo d that is zero or has the sign of d. */
  function Modulo(n: int, d: int): (r: int)
    requires d != 0
  {
    if d > 0 then n % d else -((-n) % (-d))
  }

  /** The divisions the machine specifies: a nonzero divisor, a quotient that is a cell, and
      a truncated remainder that can be added to the divisor within the cell range. */
  predicate DivOk(n: int, d: int) {
    && d != 0
    && InRange(Quotient(n, d))
    && InRange(n - d * Quotient(n, d) + d)
  }

  function SDivide(s: State, n: Word, d: Word): Option<State> {
    if DivOk(Int(n), Int(d))
    then Some(s.(pri := Wrap(Quotient(Int(n), Int(d))), alt := Wrap(Modulo(Int(n), Int(d)))))
    else None
  }

  function UDivide(s: State, n: Word, d: Word): Option<State> {
    if d == 0 then None else Some(s.(pri := Wrap(n / d), alt := Wrap(n % d)))
  }

  function SignExtend(v: Word): Word {
    var b := v % 0x100;
    if b < 0x80 then b else b + M - 0x100
  }

  // ---- block operations ----------------------------------------------------

  function CopyBlock(m: Memory, src: int, dst: int, n: nat): (r: Memory)
    requires PlainBytes(m, src, n)
    ensures forall a {:trigger a in r} :: a in r <==> a in m || dst <= a < dst + n
    ensures forall a {:trigger r[a]} :: a in r ==> r[a] == if dst <= a < dst + n then m[src + (a - dst)] else m[a]
  {
    if n == 0 then m
    else
      var r0 := CopyBlock(m, src, dst, n - 1);
      var last := dst + (n - 1);
      assert src + (last - dst) == src + (n - 1);
      r0[last := m[src + (last - dst)]]
  }

  /** -1, 0 or 1 as the first differing byte of the blocks at a and b is lower, missing or
      higher at a. */
  function CompareBlocks(m: Memory, a: int, b: int, n: nat): int
    requires PlainBytes(m, a, n) && PlainBytes(m, b, n)
    decreases n
  {
    if n == 0 then 0
    else if m[a].b < m[b].b then -1
    else if m[a].b > m[b].b then 1
    else CompareBlocks(m, a + 1, b + 1, n - 1)
  }

  function FillBlock(m: Memory, dst: int, n: nat, v: Word): (r: Memory)
    ensures forall a {:trigger a in r} :: a in r <==> a in m || dst <= a < dst + n
    ensures forall a {:trigger r[a]} :: a in r ==> r[a] == if dst <= a < dst + n then Byt(ByteOf(v, (a - dst) % 4)) else m[a]
  {
    if n == 0 then m else FillBlock(m, dst, n - 1, v)[dst + n - 1 := Byt(ByteOf(v, (n - 1) % 4))]
  }

  // ---- one operation -------------------------------------------------------

  function ApplyMem(cfg: Cfg, op: MemOp, s: State): Option<State> {
    match op
    case Load(r, m, o) => var v :- LoadCell(s.mem, Ea(s, m, o)); Some(SetAcc(s, r, v))
    case LRef(r, m, o) =>
      var a :- LoadCell(s.mem, Ea(s, m, o));
      var v :- LoadCell(s.mem, a);
      Some(SetAcc(s, r, v))
    case LoadI => var v :- LoadCell(s.mem, s.pri); Some(s.(pri := v))
    case LodbI(n) => var v :- if n == 4 then LoadCell(s.mem, s.pri) else LoadLow(s.mem, s.pri, n); Some(s.(pri := v))
    case Const(r, v) => Some(SetAcc(s, r, v))
    case Addr(r, o) => Some(SetAcc(s, r, Add(s.frm, o)))
    case Stor(r, m, o) => Put(cfg, s, Ea(s, m, o), GetAcc(s, r))
    case SRef(r, m, o) => var a :- LoadCell(s.mem, Ea(s, m, o)); Put(cfg, s, a, GetAcc(s, r))
    case StorI => Put(cfg, s, s.alt, s.pri)
    case StrbI(n) => if n == 4 then Put(cfg, s, s.alt, s.pri) else PutLow(cfg, s, s.alt, s.pri, n)
    case Lidx => var v :- LoadCell(s.mem, Indexed(s, 2)); Some(s.(pri := v))
    case LidxB(k) =>
      if k > 3 then None else var v :- LoadCell(s.mem, Indexed(s, k)); Some(s.(pri := v))
    case IdxAddr => Some(s.(pri := Indexed(s, 2)))
    case IdxAddrB(k) => if k > 3 then None else Some(s.(pri := Indexed(s, k)))
    case ZeroM(m, o) => Put(cfg, s, Ea(s, m, o), 0)
    case IncM(m, o) => AddTo(cfg, s, Ea(s, m, o), 1)
    case IncI => AddTo(cfg, s, s.pri, 1)
    case DecM(m, o) => AddTo(cfg, s, Ea(s, m, o), -1)
    case DecI => AddTo(cfg, s, s.pri, -1)
  }

  function ApplyAcc(op: AccOp, s: State): Option<State> {
    match op
    case Align(r, n) => Some(if n < 4 then SetAcc(s, r, Xor(GetAcc(s, r), 4 - n)) else s)
    case Move(r) => Some(if r.PRI? then s.(pri := s.alt) else s.(alt := s.pri))
    case Exchange => Some(s.(pri := s.alt, alt := s.pri))
    case ShiftAlt(k) => var v :- Shifted(k, s.pri, s.alt); Some(s.(pri := v))
    case ShiftC(k, r, c) => var v :- Shifted(k, GetAcc(s, r), c); Some(SetAcc(s, r, v))
    case SMul => Some(s.(pri := Wrap(Int(s.pri) * Int(s.alt))))
    case UMul => Some(s.(pri := Wrap(s.pri * s.alt)))
    case SDiv => SDivide(s, s.pri, s.alt)
    case SDivAlt => SDivide(s, s.alt, s.pri)
    case UDiv => UDivide(s, s.pri, s.alt)
    case UDivAlt => UDivide(s, s.alt, s.pri)
    case Binary(b) => Some(s.(pri := BinResult(b, s.pri, s.alt)))
    case Unary(u) => Some(s.(pri := UnResult(u, s.pri)))
    case AddC(v) => Some(s.(pri := Wrap(s.pri + Int(v))))
    case SMulC(v) => Some(s.(pri := Wrap(Int(s.pri) * Int(v))))
    case Zero(r) => Some(SetAcc(s, r, 0))
    case Sign(r) => Some(SetAcc(s, r, SignExtend(GetAcc(s, r))))
    case Compare(r) => Some(s.(pri := Bool(Related(r, s.pri, s.alt))))
    case EqC(r, v) => Some(s.(pri := Bool(GetAcc(s, r) == v)))
    case IncAcc(r) => Some(SetAcc(s, r, Wrap(GetAcc(s, r) + 1)))
    case DecAcc(r) => Some(SetAcc(s, r, Wrap(GetAcc(s, r) - 1)))
  }

  /** next is the address of the following instruction. */
  function ApplyStack(cfg: Cfg, op: StackOp, next: int, s: State): Option<State> {
    match op
    case PushAcc(r) => PushCell(cfg, s, GetAcc(s, r))
    case PushC(v) => PushCell(cfg, s, v)
    case PushM(m, o) => var v :- LoadCell(s.mem, Ea(s, m, o)); PushCell(cfg, s, v)
    case PushAdr(o) => PushCell(cfg, s, Add(s.frm, o))
    case PopAcc(r) =>
      var v :- LoadCell(s.mem, s.stk); Some(SetAcc(SetStk(s, Add(s.stk, 4)), r, v))
    case Stack(v) => Some(SetStk(s.(alt := s.stk), Wrap(s.stk + Int(v))))
    case Heap(v) =>
      var hea := Wrap(s.hea + Int(v));
      Some(s.(alt := s.hea, hea := hea, mem := Forget(s.mem, hea, s.hea)))
    case Proc => var t :- PushCell(cfg, s, s.frm); Some(t.(frm := t.stk))
    case Swap(r) =>
      var v :- LoadCell(s.mem, s.stk);
      var t :- Put(cfg, s, s.stk, GetAcc(s, r));
      Some(SetAcc(t, r, v))
    case LCtrl(k) => var v :- Control(cfg, next, s, k); Some(s.(pri := v))
    case SCtrl(k) =>
      if k == 2 then Some(s.(hea := s.pri))
      else if k == 4 then Some(SetStk(s, s.pri))
      else if k == 5 then Some(s.(frm := s.pri))
      else if k == 6 || k == 8 then None
      else Some(s)
  }

  function ApplyBlock(cfg: Cfg, op: BlockOp, s: State): Option<State> {
    match op
    case Movs(n) =>
      if BlocksOk(cfg, s, n) && TargetOk(cfg, s, n) && (s.pri + n <= s.alt || s.alt + n <= s.pri)
         && PlainBytes(s.mem, s.pri, n)
      then Some(s.(mem := CopyBlock(s.mem, s.pri, s.alt, n))) else None
    case Cmps(n) =>
      if n > 0 && BlocksOk(cfg, s, n) && PlainBytes(s.mem, s.pri, n) && PlainBytes(s.mem, s.alt, n)
      then Some(s.(pri := Wrap(CompareBlocks(s.mem, s.alt, s.pri, n)))) else None
    case Fill(n) =>
      if BlocksOk(cfg, s, n) && TargetOk(cfg, s, n) && n % 4 == 0
      then Some(s.(mem := FillBlock(s.mem, s.alt, n, s.pri))) else None
  }

  /** Operations that neither transfer control nor stop the run. None: not specified. */
  function Apply(cfg: Cfg, i: Instr, s: State): Option<State> {
    match i.op
    case Mem(op) => ApplyMem(cfg, op, s)
    case Acc(op) => ApplyAcc(op, s)
    case Stk(op) => ApplyStack(cfg, op, i.address + i.size, s)
    case Blk(op) => ApplyBlock(cfg, op, s)
    case Ctl(_) => None
    case _ => Some(s)
  }

  /** Block operations need a spare cell below STK and a count that is not negative. */
  predicate BlocksOk(cfg: Cfg, s: State, n: Word) {
    n < HALF && Room(cfg, s, 4)
  }

  /** The n bytes at ALT are in the block and clear of the spare cell. */
  predicate TargetOk(cfg: Cfg, s: State, n: Word) {
    s.alt + n <= cfg.size && (s.alt + n <= s.stk - 4 || s.stk <= s.alt)
  }

  function LoadLow(m: Memory, a: int, n: Word): Option<Word> {
    if n == 1 then if a in m && m[a].Byt? then Some(m[a].b) else None
    else if n == 2 then
      if a in m && m[a].Byt? && a + 1 in m && m[a + 1].Byt? then Some(Join(m[a].b, m[a + 1].b, 0, 0)) else None
    else None
  }

  function PutLow(cfg: Cfg, s: State, a: int, v: Word, n: Word): Option<State> {
    if a < 0 || a + n > cfg.size then None
    else if n == 1 then Some(s.(mem := s.mem[a := Byt(ByteOf(v, 0))]))
    else if n == 2 then Some(s.(mem := s.mem[a := Byt(ByteOf(v, 0))][a + 1 := Byt(ByteOf(v, 1))]))
    else None
  }

  function Indexed(s: State, k: nat): Word {
    Wrap(s.alt + s.pri * Pow2(k))
  }

  /** The value of special register k; PRI stays as it is when there is no such register. */
  function Control(cfg: Cfg, next: int, s: State, k: Word): Option<Word> {
    if k == 0 then Some(cfg.cod)
    else if k == 1 then Some(cfg.dat)
    else if k == 2 then Some(s.hea)
    else if k == 3 then Some(cfg.stp)
    else if k == 4 then Some(s.stk)
    else if k == 5 then Some(s.frm)
    else if k == 6 then Some(Wrap(next))
    else if k == 7 then Some(1)
    else if k == 8 then None
    else Some(s.pri)
  }

  function Put(cfg: Cfg, s: State, a: int, v: Word): Option<State> {
    var mem :- StoreCell(cfg, s.mem, a, v); Some(s.(mem := mem))
  }

  function AddTo(cfg: Cfg, s: State, a: int, d: int): Option<State> {
    var v :- LoadCell(s.mem, a); Put(cfg, s, a, Wrap(v + d))
  }

  // ---- control -------------------------------------------------------------

  /** The index of the instruction at an address, -1 when the address is no boundary. */
  function Find(prog: seq<Instr>, a: int): (k: int)
    ensures -1 <= k < |prog|
    ensures k >= 0 ==> prog[k].address == a
  {
    if |prog| == 0 then -1
    else if prog[|prog| - 1].address == a then |prog| - 1
    else Find(prog[..|prog| - 1], a)
  }

  /** The index of an instruction whose native code is at p, -1 when there is none. */
  function FindPtr(cfg: Cfg, prog: seq<Instr>, p: Word): (k: int)
    ensures -1 <= k < |prog|
    ensures k >= 0 ==> cfg.native(prog[k].address) == p
  {
    if |prog| == 0 then -1
    else if cfg.native(prog[|prog| - 1].address) == p then |prog| - 1
    else FindPtr(cfg, prog[..|prog| - 1], p)
  }

  function Match(cases: seq<Case>, default: int, v: Word): int {
    if |cases| == 0 then default
    else if cases[0].value == v then cases[0].address
    else Match(cases[1..], default, v)
  }

  /** The frame pointer popped by a return. */
  function LeaveFrame(s: State, frm: Word): State {
    SetStk(s.(frm := frm), Add(s.stk, 4))
  }

  function Leave(s: State): Option<(State, int)> {
    var frm :- LoadCell(s.mem, s.stk);
    var t := LeaveFrame(s, frm);
    var ret :- LoadRet(t.mem, t.stk);
    Some((SetStk(t, Add(t.stk, 4)), ret))
  }

  /** Return address 0 is what the host pushed. */
  function Resume(s: State, ret: int): Outcome {
    if ret == 0 then Done(s) else Next(s.(cip := ret))
  }

  function Branch(s: State, i: Instr, taken: bool, dest: int): Outcome {
    Next(s.(cip := if taken then dest else i.address + i.size))
  }

  function Step(cfg: Cfg, prog: seq<Instr>, s: State): Outcome {
    var k := Find(prog, s.cip);
    if k < 0 then Stuck else Perform(cfg, prog, prog[k], s)
  }

  function Perform(cfg: Cfg, prog: seq<Instr>, i: Instr, s: State): Outcome {
    if i.op.Ctl? then Transfer(cfg, prog, i, i.op.ctl, s) else Advance(i, Apply(cfg, i, s))
  }

  /** What a native function does is no part of the machine. */
  function Transfer(cfg: Cfg, prog: seq<Instr>, i: Instr, op: ControlOp, s: State): Outcome {
    match op
    case Jump(d) => Branch(s, i, true, d)
    case JZer(d) => Branch(s, i, s.pri == 0, d)
    case JNz(d) => Branch(s, i, s.pri != 0, d)
    case JRel(r, d) => Branch(s, i, Related(r, s.pri, s.alt), d)
    case Switch(cases, d) => Branch(s, i, true, Match(cases, d, s.pri))
    case JumpPri => IndirectJump(cfg, prog, i, s)
    case SetCip => IndirectJump(cfg, prog, i, s)
    case CodePtr => if Room(cfg, s, cfg.frame + 20) then Branch(s.(pri := cfg.native(s.pri)), i, false, 0) else Stuck
    case JumpPtr =>
      var k := FindPtr(cfg, prog, s.pri);
      if k < 0 then Stuck else Branch(s, i, true, prog[k].address)
    case Call(d) =>
      var sp := Sub(s.stk, 4);
      var m := StoreRet(cfg, s.mem, sp, i.address + i.size);
      if m.None? then Stuck else Next(s.(stk := sp, mem := m.value, cip := d))
    case Ret =>
      var l := Leave(s);
      if l.None? then Stuck else Resume(l.value.0, l.value.1)
    case Retn =>
      var l := LeaveN(cfg, s);
      if l.None? then Stuck else Resume(l.value.0, l.value.1)
    case Halt(e) => Stop(cfg, s, e)
    case Bounds(v) =>
      if Int(s.pri) > Int(v) || Int(s.pri) < 0 then Stop(cfg, s, AMX_ERR_BOUNDS)
      else Branch(s, i, false, 0)
    case Sysreq(_) => Stuck
  }

  /** Stopping takes a spare cell below STK. */
  function Stop(cfg: Cfg, s: State, error: Word): Outcome {
    if Room(cfg, s, 4) then Halted(s, error) else Stuck
  }

  function Advance(i: Instr, t: Option<State>): Outcome {
    if t.None? then Stuck else Next(t.value.(cip := i.address + i.size))
  }

  /** An indirect jump to an address that is no boundary is no jump at all. */
  function IndirectJump(cfg: Cfg, prog: seq<Instr>, i: Instr, s: State): Outcome {
    if Room(cfg, s, cfg.frame + 28) then Branch(s, i, Find(prog, s.pri) >= 0, s.pri) else Stuck
  }

  /** RETN also removes the cell at STK and as many bytes as that cell says. */
  function LeaveN(cfg: Cfg, s: State): Option<(State, int)> {
    var l :- Leave(s);
    var n :- LoadCell(l.0.mem, l.0.stk);
    if l.0.stk + n + 4 > cfg.size then None else Some((SetStk(l.0, Wrap(l.0.stk + n + 4)), l.1))
  }

  /** n steps; Stuck once a step is. */
  function Steps(cfg: Cfg, prog: seq<Instr>, n: nat, s: State): Outcome {
    if n == 0 then Next(s)
    else
      match Step(cfg, prog, s)
      case Next(t) => Steps(cfg, prog, n - 1, t)
      case o => o
  }
}
