/** The x86 subset that the compiler emits: registers, flags, the AMX data block as bytes,
    the native stack as dwords, the runtime information block and the AMX structure. */
module X86 {
  import opened Word32

  datatype Reg = EAX | ECX | EDX | EBX | ESP | EBP | ESI | EDI

  datatype Regs = Regs(eax: Word, ecx: Word, edx: Word, ebx: Word,
                       esp: Word, ebp: Word, esi: Word, edi: Word)

  function Get(r: Regs, n: Reg): Word {
    match n
    case EAX => r.eax
    case ECX => r.ecx
    case EDX => r.edx
    case EBX => r.ebx
    case ESP => r.esp
    case EBP => r.ebp
    case ESI => r.esi
    case EDI => r.edi
  }

  function Set(r: Regs, n: Reg, v: Word): Regs {
    match n
    case EAX => r.(eax := v)
    case ECX => r.(ecx := v)
    case EDX => r.(edx := v)
    case EBX => r.(ebx := v)
    case ESP => r.(esp := v)
    case EBP => r.(ebp := v)
    case ESI => r.(esi := v)
    case EDI => r.(edi := v)
  }

  // Fields of RuntimeInfoBlock and of the AMX and AMX_HEADER structures.
  datatype RibField = RibAmx | RibEbp | RibEsp | RibAmxEbp | RibAmxEsp
                    | RibResetEbp | RibResetEsp | RibResetStk | RibResetHea

  datatype AmxField = ABase | AData | AFrm | AHea | AHlw | AStk | AStp | AFlags
                    | AError | AParamCount | APri | AAlt

  datatype HdrField = HCod | HDat

  datatype RibBlock = RibBlock(amx: Word, ebp: Word, esp: Word, amxEbp: Word, amxEsp: Word,
                               resetEbp: Word, resetEsp: Word, resetStk: Word, resetHea: Word)

  datatype AmxBlock = AmxBlock(base: Word, data: Word, frm: Word, hea: Word, hlw: Word, stk: Word, stp: Word,
                               flags: Word, error: Word, paramCount: Word, pri: Word, alt: Word)

  function GetRib(b: RibBlock, f: RibField): Word {
    match f
    case RibAmx => b.amx
    case RibEbp => b.ebp
    case RibEsp => b.esp
    case RibAmxEbp => b.amxEbp
    case RibAmxEsp => b.amxEsp
    case RibResetEbp => b.resetEbp
    case RibResetEsp => b.resetEsp
    case RibResetStk => b.resetStk
    case RibResetHea => b.resetHea
  }

  function SetRib(b: RibBlock, f: RibField, v: Word): RibBlock {
    match f
    case RibAmx => b.(amx := v)
    case RibEbp => b.(ebp := v)
    case RibEsp => b.(esp := v)
    case RibAmxEbp => b.(amxEbp := v)
    case RibAmxEsp => b.(amxEsp := v)
    case RibResetEbp => b.(resetEbp := v)
    case RibResetEsp => b.(resetEsp := v)
    case RibResetStk => b.(resetStk := v)
    case RibResetHea => b.(resetHea := v)
  }

  function GetAmx(b: AmxBlock, f: AmxField): Word {
    match f
    case ABase => b.base
    case AData => b.data
    case AFrm => b.frm
    case AHea => b.hea
    case AHlw => b.hlw
    case AStk => b.stk
    case AStp => b.stp
    case AFlags => b.flags
    case AError => b.error
    case AParamCount => b.paramCount
    case APri => b.pri
    case AAlt => b.alt
  }

  function SetAmx(b: AmxBlock, f: AmxField, v: Word): AmxBlock {
    match f
    case ABase => b.(base := v)
    case AData => b.(data := v)
    case AFrm => b.(frm := v)
    case AHea => b.(hea := v)
    case AHlw => b.(hlw := v)
    case AStk => b.(stk := v)
    case AStp => b.(stp := v)
    case AFlags => b.(flags := v)
    case AError => b.(error := v)
    case AParamCount => b.(paramCount := v)
    case APri => b.(pri := v)
    case AAlt => b.(alt := v)
  }

  /** Dword memory operands. */
  datatype Mem =
    | At(base: Reg, disp: Word)
    | Index(ibase: Reg, index: Reg, shift: nat)
    | Rib(rib: RibField)
    | Amx(areg: Reg, field: AmxField)
    | Hdr(hreg: Reg, hdr: HdrField)

  datatype Opd = R(reg: Reg) | I(imm: Word) | Mm(mem: Mem) | RibStart

  datatype AluOp = AddOp | SubOp | AndOp | OrOp | XorOp
  datatype ShiftOp = ShlOp | ShrOp | SarOp
  datatype Cond = E | NE | B | BE | A | AE | L | LE | G | GE

  datatype Helper = Exec | JumpHelper | JumpLookup | HaltHelper | ExecHelper | ExecReturn | ExecExit
                  | SysreqCHelper | SysreqDHelper

  /** ToCode is the label of an AMX address; Skip(n) a local label, n instructions behind the
      jump or, when n is negative, in front of the instruction behind it. */
  datatype Target = ToCode(address: int) | ToHelper(helper: Helper) | Skip(n: int)

  datatype Insn =
    | Mov(dst: Opd, src: Opd)
    | MovZx(zdst: Reg, zmem: Mem, zwidth: nat)
    | MovLow(lmem: Mem, lsrc: Reg, lwidth: nat)
    | ZeroExtendLow(reg: Reg)
    | SignExtendLow(reg: Reg)
    | Lea(edst: Reg, emem: Mem)
    | Alu(op: AluOp, dst: Opd, src: Opd)
    | Cmp(reg: Reg, src: Opd)
    | Test(reg: Reg, src: Opd)
    | Inc(dst: Opd)
    | Dec(dst: Opd)
    | NegR(reg: Reg)
    | NotR(reg: Reg)
    | Shift(sop: ShiftOp, reg: Reg, src: Opd)
    | IMul1(reg: Reg)
    | Mul1(reg: Reg)
    | IMul2(reg: Reg, src: Opd)
    | Cdq
    | IDiv(reg: Reg)
    | Div(reg: Reg)
    | Push(src: Opd)
    | Pop(dst: Opd)
    | Xchg(dst: Opd, reg: Reg)
    | SetCc(cond: Cond, reg: Reg)
    | RepMovs(width: nat)
    | RepeCmpsb
    | RepStosd
    | Nop
    | Jmp(target: Target)
    | Jcc(cond: Cond, target: Target)
    | Call(target: Target)
    | CallReg(reg: Reg)
    | JmpReg(reg: Reg)
    | Ret
    | CallGetJITInstrPtr
    | CallGetPublicAddress

  datatype Flags = NoFlags | Flags(zf: bool, cf: bool, sf: bool, of: bool)

  type Data = map<int, Byte>

  datatype State = State(regs: Regs, fl: Flags, data: Data, native: map<Word, Word>,
                         rib: RibBlock, amx: AmxBlock)

  /** A machine state and the index of the next instruction. */
  datatype Conf = Conf(s: State, pc: int)

  /** One entry of the instruction table: AMX address and native address. */
  datatype Entry = Entry(address: int, ptr: Word)

  /** What a C callee leaves: in the caller-saved registers, and in each byte or word below its
      stack pointer. */
  datatype Junk = Junk(ecx: Word, edx: Word, data: int -> Byte, native: Word -> Word)

  /** What a run does not change: where the blocks live, the assembled code with the native
      address of every instruction, the labels, where the code of each AMX instruction ends,
      where each AMX return address resumes, the instruction table and the addresses of the
      public functions. Junk is what a C callee that is entered in a state leaves. */
  datatype Env = Env(base: Word, ribPtr: Word, amxPtr: Word, cod: Word, dat: Word,
                     code: seq<Insn>, addrs: seq<Word>, labels: map<int, int>, ends: map<int, int>, resumes: map<int, int>,
                     helpers: map<Helper, int>, table: seq<Entry>, publics: map<Word, Word>,
                     junk: State -> Junk, frame: nat)

  // ---- memory ------------------------------------------------------------

  predicate Has4(m: Data, o: int) {
    o in m && o + 1 in m && o + 2 in m && o + 3 in m
  }

  function Load4(m: Data, o: int): Word
    requires Has4(m, o)
  {
    Join(m[o], m[o + 1], m[o + 2], m[o + 3])
  }

  function Store4(m: Data, o: int, v: Word): Data {
    m[o := ByteOf(v, 0)][o + 1 := ByteOf(v, 1)][o + 2 := ByteOf(v, 2)][o + 3 := ByteOf(v, 3)]
  }

  function LoadAt(env: Env, s: State, a: Word): Option<Word> {
    var o := Sub(a, env.base);
    if Has4(s.data, o) then Some(Load4(s.data, o))
    else if a in s.native then Some(s.native[a])
    else None
  }

  function StoreAt(env: Env, s: State, a: Word, v: Word): Option<State> {
    var o := Sub(a, env.base);
    if Has4(s.data, o) then Some(s.(data := Store4(s.data, o, v)))
    else if a in s.native then Some(s.(native := s.native[a := v]))
    else None
  }

  function Address(s: State, m: Mem): Word
    requires m.At? || m.Index?
  {
    match m
    case At(b, d) => Add(Get(s.regs, b), d)
    case Index(b, i, k) => Add(Get(s.regs, b), Scaled(Get(s.regs, i), k))
  }

  /** The index register doubled k times. */
  function Scaled(v: Word, k: nat): Word {
    if k == 0 then v else Add(Scaled(v, k - 1), Scaled(v, k - 1))
  }

  function LoadMem(env: Env, s: State, m: Mem): Option<Word> {
    match m
    case Rib(f) => Some(GetRib(s.rib, f))
    case Amx(r, f) => if Get(s.regs, r) == env.amxPtr then Some(GetAmx(s.amx, f)) else None
    case Hdr(r, f) =>
      if Get(s.regs, r) == s.amx.base
      then Some(if f == HCod then env.cod else env.dat) else None
    case At(_, _) => LoadAt(env, s, Address(s, m))
    case Index(_, _, _) => LoadAt(env, s, Address(s, m))
  }

  function StoreMem(env: Env, s: State, m: Mem, v: Word): Option<State> {
    match m
    case Rib(f) => Some(s.(rib := SetRib(s.rib, f, v)))
    case Amx(r, f) =>
      if Get(s.regs, r) == env.amxPtr then Some(s.(amx := SetAmx(s.amx, f, v))) else None
    case Hdr(_, _) => None
    case At(_, _) => StoreAt(env, s, Address(s, m), v)
    case Index(_, _, _) => StoreAt(env, s, Address(s, m), v)
  }

  function Read(env: Env, s: State, o: Opd): Option<Word> {
    match o
    case R(r) => Some(Get(s.regs, r))
    case I(v) => Some(v)
    case Mm(m) => LoadMem(env, s, m)
    case RibStart => Some(env.ribPtr)
  }

  function Write(env: Env, s: State, o: Opd, v: Word): Option<State> {
    match o
    case R(r) => Some(s.(regs := Set(s.regs, r, v)))
    case Mm(m) => StoreMem(env, s, m, v)
    case I(_) => None
    case RibStart => None
  }

  function PushWord(env: Env, s: State, v: Word): Option<State> {
    var sp := Sub(s.regs.esp, 4);
    StoreAt(env, s.(regs := s.regs.(esp := sp)), sp, v)
  }

  // ---- arithmetic --------------------------------------------------------

  function AluResult(op: AluOp, a: Word, b: Word): Word {
    match op
    case AddOp => Add(a, b)
    case SubOp => Sub(a, b)
    case AndOp => And(a, b)
    case OrOp => Or(a, b)
    case XorOp => Xor(a, b)
  }

  /** Shift counts are taken modulo 32. */
  function ShiftResult(op: ShiftOp, a: Word, count: Word): Word {
    var n := count % 32;
    match op
    case ShlOp => Wrap(a * Pow2(n))
    case ShrOp => Wrap(a / Pow2(n))
    case SarOp => Wrap(Int(a) / Pow2(n))
  }

  /** Flags of a compare of two operands of the given modulus. */
  function CmpFlags(a: int, b: int, modulus: int): Flags
    requires modulus > 0
  {
    var d := if a >= b then a - b else a - b + modulus;
    var half := modulus / 2;
    var sa := if a < half then a else a - modulus;
    var sb := if b < half then b else b - modulus;
    Flags(a == b, a < b, d >= half, !(-half <= sa - sb < half))
  }

  function TestFlags(v: Word): Flags {
    Flags(v == 0, false, v >= HALF, false)
  }

  predicate Holds(c: Cond, f: Flags)
    requires f.Flags?
  {
    match c
    case E => f.zf
    case NE => !f.zf
    case B => f.cf
    case BE => f.cf || f.zf
    case A => !f.cf && !f.zf
    case AE => !f.cf
    case L => f.sf != f.of
    case LE => f.zf || f.sf != f.of
    case G => !f.zf && f.sf == f.of
    case GE => f.sf == f.of
  }

  /** Division truncating toward zero and its remainder. */
  function TDiv(n: int, d: int): int
    requires d != 0
  {
    if n >= 0 then (if d > 0 then n / d else -(n / -d))
    else if d > 0 then -(-n / d) else (-n) / (-d)
  }

  function TRem(n: int, d: int): int
    requires d != 0
  {
    n - d * TDiv(n, d)
  }

  /** The signed dividend in edx:eax. */
  function Dividend(r: Regs): int { Int(r.edx) * M + r.eax }

  function SignExtendByte(b: Byte): Word { if b < 0x80 then b else b + M - 0x100 }

  // ---- string instructions ------------------------------------------------

  predicate HasN(m: Data, o: int, w: nat) {
    forall k :: o <= k < o + w ==> k in m
  }

  /** Copies w bytes at offset si to offset di, all read before any is written. */
  function CopyUnit(m: Data, si: int, di: int, w: nat): Data
    requires HasN(m, si, w) && HasN(m, di, w)
  {
    map k | k in m :: if di <= k < di + w then m[si + (k - di)] else m[k]
  }

  /** n forward copies of w bytes each (the direction flag is clear), by data offset; leaving
      the data block is a fault. */
  function Movs(m: Data, si: int, di: int, n: nat, w: nat): Option<Data>
    decreases n
  {
    if n == 0 then Some(m)
    else if HasN(m, si, w) && HasN(m, di, w) then Movs(CopyUnit(m, si, di, w), si + w, di + w, n - 1, w)
    else None
  }

  function Stosd(m: Data, di: int, v: Word, n: nat): Option<Data>
    decreases n
  {
    if n == 0 then Some(m)
    else if Has4(m, di) then Stosd(Store4(m, di, v), di + 4, v, n - 1)
    else None
  }

  /** Compares until a difference or the count runs out; the flags are those of the last
      compare, and stay as they were when the count is zero. */
  function Cmpsb(m: Data, si: int, di: int, n: nat, fl: Flags): Option<(Flags, nat)>
    decreases n
  {
    if n == 0 then Some((fl, 0))
    else if si in m && di in m then
      var f := CmpFlags(m[si], m[di], 0x100);
      if f.zf then
        var r :- Cmpsb(m, si + 1, di + 1, n - 1, f);
        Some((r.0, r.1 + 1))
      else Some((f, 1))
    else None
  }

  // ---- one straight-line instruction --------------------------------------

  function SetReg(s: State, r: Reg, v: Word): State {
    s.(regs := Set(s.regs, r, v))
  }

  function Undef(s: State): State { s.(fl := NoFlags) }

  function DoMov(env: Env, d: Opd, src: Opd, s: State): Option<State> {
    var v :- Read(env, s, src); Write(env, s, d, v)
  }

  /** movzx of a byte or a word in the data block. */
  function DoMovZx(env: Env, r: Reg, m: Mem, w: nat, s: State): Option<State> {
    if !(m.At? || m.Index?) || !(w == 1 || w == 2) then None
    else
      var o := Sub(Address(s, m), env.base);
      if o in s.data && (w == 2 ==> o + 1 in s.data)
      then Some(SetReg(s, r, Join(s.data[o], if w == 1 then 0 else s.data[o + 1], 0, 0)))
      else None
  }

  /** Stores the low byte or word of a register in the data block. */
  function DoMovLow(env: Env, m: Mem, r: Reg, w: nat, s: State): Option<State> {
    if !(m.At? || m.Index?) || !(w == 1 || w == 2) then None
    else
      var o := Sub(Address(s, m), env.base);
      var v := Get(s.regs, r);
      if w == 1 && o in s.data then Some(s.(data := s.data[o := ByteOf(v, 0)]))
      else if w == 2 && o in s.data && o + 1 in s.data
      then Some(s.(data := s.data[o := ByteOf(v, 0)][o + 1 := ByteOf(v, 1)]))
      else None
  }

  function DoLea(r: Reg, m: Mem, s: State): Option<State> {
    if m.At? || m.Index? then Some(SetReg(s, r, Address(s, m))) else None
  }

  function DoAlu(env: Env, op: AluOp, d: Opd, src: Opd, s: State): Option<State> {
    var a :- Read(env, s, d);
    var b :- Read(env, s, src);
    Write(env, Undef(s), d, AluResult(op, a, b))
  }

  function DoCmp(env: Env, r: Reg, src: Opd, s: State): Option<State> {
    var b :- Read(env, s, src);
    Some(s.(fl := CmpFlags(Get(s.regs, r), b, M)))
  }

  function DoTest(env: Env, r: Reg, src: Opd, s: State): Option<State> {
    var b :- Read(env, s, src);
    Some(s.(fl := TestFlags(And(Get(s.regs, r), b))))
  }

  function DoInc(env: Env, d: Opd, up: bool, s: State): Option<State> {
    var v :- Read(env, s, d); Write(env, Undef(s), d, if up then Add(v, 1) else Sub(v, 1))
  }

  function DoShift(env: Env, op: ShiftOp, r: Reg, src: Opd, s: State): Option<State> {
    var c :- Read(env, s, src);
    Some(SetReg(Undef(s), r, ShiftResult(op, Get(s.regs, r), c)))
  }

  /** edx:eax = p. */
  function Wide(p: int, s: State): State {
    Undef(s).(regs := s.regs.(eax := Wrap(p), edx := Wrap(p / M)))
  }

  function DoIMul2(env: Env, r: Reg, src: Opd, s: State): Option<State> {
    var b :- Read(env, s, src);
    Some(SetReg(Undef(s), r, Wrap(Int(Get(s.regs, r)) * Int(b))))
  }

  /** Faults on a zero divisor and on a quotient that does not fit. */
  function DoIDiv(r: Reg, s: State): Option<State> {
    var n, d := Dividend(s.regs), Int(Get(s.regs, r));
    if d == 0 || !InRange(TDiv(n, d)) || !InRange(TRem(n, d)) then None
    else Some(Undef(s).(regs := s.regs.(eax := Cell(TDiv(n, d)), edx := Cell(TRem(n, d)))))
  }

  function DoDiv(r: Reg, s: State): Option<State> {
    var n, d := s.regs.edx * M + s.regs.eax, Get(s.regs, r);
    if d == 0 || !(0 <= n / d < M) || !(0 <= n % d < M) then None
    else Some(Undef(s).(regs := s.regs.(eax := n / d, edx := n % d)))
  }

  function DoPush(env: Env, src: Opd, s: State): Option<State> {
    var v :- Read(env, s, src); PushWord(env, s, v)
  }

  function DoPop(env: Env, d: Opd, s: State): Option<State> {
    var v :- LoadAt(env, s, s.regs.esp);
    Write(env, s.(regs := s.regs.(esp := Add(s.regs.esp, 4))), d, v)
  }

  function DoXchg(env: Env, d: Opd, r: Reg, s: State): Option<State> {
    var v :- Read(env, s, d);
    var t :- Write(env, s, d, Get(s.regs, r));
    Some(SetReg(t, r, v))
  }

  function DoSetCc(c: Cond, r: Reg, s: State): Option<State> {
    if s.fl.Flags?
    then
      var v := Get(s.regs, r);
      Some(SetReg(s, r, v - v % 0x100 + Bool(Holds(c, s.fl))))
    else None
  }

  function DoRepMovs(env: Env, w: nat, s: State): Option<State> {
    if !(w == 1 || w == 2 || w == 4) then None
    else
      var n := s.regs.ecx;
      var m :- Movs(s.data, Sub(s.regs.esi, env.base), Sub(s.regs.edi, env.base), n, w);
      Some(s.(data := m, regs := s.regs.(ecx := 0, esi := Past(s.regs.esi, n, w), edi := Past(s.regs.edi, n, w))))
  }

  /** The address n units of width w further on. */
  function Past(a: Word, n: nat, w: nat): Word {
    Wrap(if w == 4 then a + 4 * n else if w == 2 then a + 2 * n else a + n)
  }

  function DoRepeCmpsb(env: Env, s: State): Option<State> {
    var r :- Cmpsb(s.data, Sub(s.regs.esi, env.base), Sub(s.regs.edi, env.base), s.regs.ecx, s.fl);
    Some(s.(fl := r.0, regs := s.regs.(ecx := Wrap(s.regs.ecx - r.1), esi := Wrap(s.regs.esi + r.1),
                                       edi := Wrap(s.regs.edi + r.1))))
  }

  function DoRepStosd(env: Env, s: State): Option<State> {
    var n := s.regs.ecx;
    var m :- Stosd(s.data, Sub(s.regs.edi, env.base), s.regs.eax, n);
    Some(s.(data := m, regs := s.regs.(ecx := 0, edi := Wrap(s.regs.edi + n * 4))))
  }

  /** What a C function that was called with eight bytes of arguments leaves: its result in
      eax; ecx, edx, the flags and its part of the stack that esp is on are lost. */
  function Called(env: Env, s: State, result: Word): State {
    var j := env.junk(s);
    var t := s.(regs := s.regs.(eax := result, ecx := j.ecx, edx := j.edx), fl := NoFlags);
    if Has4(s.data, Sub(s.regs.esp, env.base))
    then t.(data := Scribble(env, j, s.data, Sub(s.regs.esp, env.base) + 8))
    else t.(native := Below(s.native, s.regs.esp + 8, j.native))
  }

  /** Every native stack word below top lost. */
  function Below(n: map<Word, Word>, top: int, junk: Word -> Word): map<Word, Word> {
    map k | k in n :: if k < top then junk(k) else n[k]
  }

  /** The call of GetJITInstrPtr, which needs the runtime block as its second argument. */
  function DoLookup(env: Env, s: State): Option<State> {
    var address :- LoadAt(env, s, s.regs.esp);
    var rib :- LoadAt(env, s, Add(s.regs.esp, 4));
    if rib != env.ribPtr then None else Some(Called(env, s, Lookup(env.table, address)))
  }

  /** The call of GetPublicAddress, which needs the AMX structure as its first argument: 0 for an
      index without a public function. */
  function DoPublic(env: Env, s: State): Option<State> {
    var amx :- LoadAt(env, s, s.regs.esp);
    var index :- LoadAt(env, s, Add(s.regs.esp, 4));
    if amx != env.amxPtr then None else Some(Called(env, s, if index in env.publics then env.publics[index] else 0))
  }

  /** The effect of an instruction that is not a control transfer, the program counter
      aside; None is a fault or a use of flags the model leaves unspecified. */
  function Effect(env: Env, i: Insn, s: State): Option<State> {
    match i
    case Mov(d, src) => DoMov(env, d, src, s)
    case MovZx(r, m, w) => DoMovZx(env, r, m, w, s)
    case MovLow(m, r, w) => DoMovLow(env, m, r, w, s)
    case ZeroExtendLow(r) => Some(SetReg(s, r, Get(s.regs, r) % 0x100))
    case SignExtendLow(r) => Some(SetReg(s, r, SignExtendByte(Get(s.regs, r) % 0x100)))
    case Lea(r, m) => DoLea(r, m, s)
    case Alu(op, d, src) => DoAlu(env, op, d, src, s)
    case Cmp(r, src) => DoCmp(env, r, src, s)
    case Test(r, src) => DoTest(env, r, src, s)
    case Inc(d) => DoInc(env, d, true, s)
    case Dec(d) => DoInc(env, d, false, s)
    case NegR(r) => Some(SetReg(Undef(s), r, Neg(Get(s.regs, r))))
    case NotR(r) => Some(SetReg(s, r, Not(Get(s.regs, r))))
    case Shift(op, r, src) => DoShift(env, op, r, src, s)
    case IMul1(r) => Some(Wide(Int(s.regs.eax) * Int(Get(s.regs, r)), s))
    case Mul1(r) => Some(Wide(s.regs.eax * Get(s.regs, r), s))
    case IMul2(r, src) => DoIMul2(env, r, src, s)
    case Cdq => Some(SetReg(s, EDX, if Int(s.regs.eax) < 0 then M - 1 else 0))
    case IDiv(r) => DoIDiv(r, s)
    case Div(r) => DoDiv(r, s)
    case Push(src) => DoPush(env, src, s)
    case Pop(d) => DoPop(env, d, s)
    case Xchg(d, r) => DoXchg(env, d, r, s)
    case SetCc(c, r) => DoSetCc(c, r, s)
    case RepMovs(w) => DoRepMovs(env, w, s)
    case RepeCmpsb => DoRepeCmpsb(env, s)
    case RepStosd => DoRepStosd(env, s)
    case Nop => Some(s)
    case CallGetJITInstrPtr => DoLookup(env, s)
    case CallGetPublicAddress => DoPublic(env, s)
    case _ => None
  }

  /** The bytes of the callee's frame and arguments lost. */
  function Scribble(env: Env, j: Junk, m: Data, top: int): Data {
    map k | k in m :: if top - 8 - env.frame <= k < top then j.data(k) else m[k]
  }

  // ---- table lookup ---------------------------------------------------------

  /** The native address recorded for an AMX address, 0 when there is none. */
  function Lookup(table: seq<Entry>, address: int): Word {
    if |table| == 0 then 0
    else if table[0].address == address then table[0].ptr
    else Lookup(table[1..], address)
  }

  // ---- control --------------------------------------------------------------

  function Resolve(env: Env, pc: int, t: Target): Option<int> {
    match t
    case ToCode(a) => if a in env.labels then Some(env.labels[a]) else None
    case ToHelper(h) => if h in env.helpers then Some(env.helpers[h]) else None
    case Skip(n) => Some(pc + 1 + n)
  }

  /** The index of the instruction at a native address. */
  function IndexOf(addrs: seq<Word>, p: Word): Option<int> {
    if |addrs| == 0 then None
    else if addrs[|addrs| - 1] == p then Some(|addrs| - 1)
    else IndexOf(addrs[..|addrs| - 1], p)
  }

  /** A call pushes the address of the instruction behind it. */
  function DoCall(env: Env, c: Conf, k: int): Option<Conf> {
    if !(0 <= c.pc + 1 < |env.addrs|) then None
    else var u :- PushWord(env, c.s, env.addrs[c.pc + 1]); Some(Conf(u, k))
  }

  function DoRet(env: Env, s: State): Option<Conf> {
    var p :- LoadAt(env, s, s.regs.esp);
    var k :- IndexOf(env.addrs, p);
    Some(Conf(s.(regs := s.regs.(esp := Add(s.regs.esp, 4))), k))
  }

  function DoJcc(env: Env, cc: Cond, t: Target, c: Conf): Option<Conf> {
    if !c.s.fl.Flags? then None
    else if Holds(cc, c.s.fl) then var k :- Resolve(env, c.pc, t); Some(c.(pc := k))
    else Some(c.(pc := c.pc + 1))
  }

  function Step(env: Env, c: Conf): Option<Conf> {
    if !(0 <= c.pc < |env.code|) then None else Perform(env, env.code[c.pc], c)
  }

  function Perform(env: Env, i: Insn, c: Conf): Option<Conf>
    requires c.pc >= 0
  {
    match i
    case Jmp(t) => var k :- Resolve(env, c.pc, t); Some(c.(pc := k))
    case Jcc(cc, t) => DoJcc(env, cc, t, c)
    case Call(t) => var k :- Resolve(env, c.pc, t); DoCall(env, c, k)
    case CallReg(r) => var k :- IndexOf(env.addrs, Get(c.s.regs, r)); DoCall(env, c, k)
    case JmpReg(r) => var k :- IndexOf(env.addrs, Get(c.s.regs, r)); Some(c.(pc := k))
    case Ret => DoRet(env, c.s)
    case _ => var u :- Effect(env, i, c.s); Some(Conf(u, c.pc + 1))
  }

  function Run(env: Env, n: nat, c: Conf): Option<Conf> {
    if n == 0 then Some(c)
    else var t :- Step(env, c); Run(env, n - 1, t)
  }

  /** The effect of a straight-line sequence. */
  function Effects(env: Env, code: seq<Insn>, s: State): Option<State> {
    if |code| == 0 then Some(s)
    else var t :- Effect(env, code[0], s); Effects(env, code[1..], t)
  }
}
