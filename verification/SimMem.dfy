/** Loads, stores and address computations run as the machine specifies. */
module SimMem {
  import opened Word32
  import opened X86
  import Amx
  import opened Emit
  import opened Relation

  lemma PlaceLoad(env: Env, cfg: Amx.Cfg, a: Amx.State, x: State, m: Amx.Mode, o: Word)
    requires Consistent(env, cfg) && Core(env, cfg, a, x)
    requires Amx.LoadCell(a.mem, Amx.Ea(a, m, o)).Some?
    ensures LoadMem(env, x, Place(m, o)) == Amx.LoadCell(a.mem, Amx.Ea(a, m, o))
  {
    Rebase(env.base, a.frm, o);
    LoadRel(env, cfg, a, x, Amx.Ea(a, m, o));
  }

  lemma IndexLoad(env: Env, cfg: Amx.Cfg, a: Amx.State, x: State, r: Reg)
    requires Consistent(env, cfg) && Core(env, cfg, a, x)
    requires Amx.LoadCell(a.mem, Get(x.regs, r)).Some?
    ensures LoadMem(env, x, Index(EBX, r, 0)) == Amx.LoadCell(a.mem, Get(x.regs, r))
  {
    LoadRel(env, cfg, a, x, Get(x.regs, r));
  }

  /** The state after storing v at data address at. */
  function Stored(x: State, at: int, v: Word): State { x.(data := Store4(x.data, at, v)) }

  lemma PlaceStore(env: Env, cfg: Amx.Cfg, a: Amx.State, x: State, m: Amx.Mode, o: Word, v: Word, b: Amx.State)
    requires Consistent(env, cfg) && Core(env, cfg, a, x)
    requires Amx.Put(cfg, a, Amx.Ea(a, m, o), v) == Some(b)
    ensures var t := StoreMem(env, x, Place(m, o), v);
            t == Some(Stored(x, Amx.Ea(a, m, o), v)) && Core(env, cfg, b, t.value) && Frame(x, t.value)
  {
    Rebase(env.base, a.frm, o);
    StoreRel(env, cfg, a.mem, x, Amx.Ea(a, m, o), v);
  }

  lemma IndexStore(env: Env, cfg: Amx.Cfg, a: Amx.State, x: State, r: Reg, v: Word, b: Amx.State)
    requires Consistent(env, cfg) && Core(env, cfg, a, x)
    requires Amx.Put(cfg, a, Get(x.regs, r), v) == Some(b)
    ensures var t := StoreMem(env, x, Index(EBX, r, 0), v);
            t == Some(Stored(x, Get(x.regs, r), v)) && Core(env, cfg, b, t.value) && Frame(x, t.value)
  {
    StoreRel(env, cfg, a.mem, x, Get(x.regs, r), v);
  }

  lemma SimLoad(env: Env, cfg: Amx.Cfg, r: Amx.Acc, m: Amx.Mode, o: Word, a: Amx.State, x: State, b: Amx.State)
    requires Consistent(env, cfg) && Core(env, cfg, a, x)
    requires Amx.ApplyMem(cfg, Amx.Load(r, m, o), a) == Some(b)
    ensures Simulates(env, cfg, MemCode(Amx.Load(r, m, o)), x, b)
  {
    PlaceLoad(env, cfg, a, x, m, o);
    Seq1(env, Mov(R(RegOf(r)), Mm(Place(m, o))), x);
    CoreAcc(env, cfg, r, Amx.LoadCell(a.mem, Amx.Ea(a, m, o)).value, a, x);
  }

  lemma EffRef(env: Env, r: Reg, m: Mem, x: State, at: Word, v: Word)
    requires LoadMem(env, x, m) == Some(at)
    requires LoadMem(env, SetReg(x, EDX, at), Index(EBX, EDX, 0)) == Some(v)
    ensures Effects(env, [Mov(R(EDX), Mm(m)), Mov(R(r), Mm(Index(EBX, EDX, 0)))], x)
         == Some(SetReg(SetReg(x, EDX, at), r, v))
  {
    Seq2(env, Mov(R(EDX), Mm(m)), Mov(R(r), Mm(Index(EBX, EDX, 0))), x);
  }

  lemma SimLRef(env: Env, cfg: Amx.Cfg, r: Amx.Acc, m: Amx.Mode, o: Word, a: Amx.State, x: State, b: Amx.State)
    requires Consistent(env, cfg) && Core(env, cfg, a, x)
    requires Amx.ApplyMem(cfg, Amx.LRef(r, m, o), a) == Some(b)
    ensures Simulates(env, cfg, MemCode(Amx.LRef(r, m, o)), x, b)
  {
    var at := Amx.LoadCell(a.mem, Amx.Ea(a, m, o)).value;
    var v := Amx.LoadCell(a.mem, at).value;
    PlaceLoad(env, cfg, a, x, m, o);
    CoreScratch(env, cfg, a, x, at, x.regs.esi, x.regs.edi, x.fl);
    var y := SetReg(x, EDX, at);
    IndexLoad(env, cfg, a, y, EDX);
    EffRef(env, RegOf(r), Place(m, o), x, at, v);
    CoreAcc(env, cfg, r, v, a, y);
  }

  lemma SimLoadI(env: Env, cfg: Amx.Cfg, a: Amx.State, x: State, b: Amx.State)
    requires Consistent(env, cfg) && Core(env, cfg, a, x)
    requires Amx.ApplyMem(cfg, Amx.LoadI, a) == Some(b)
    ensures Simulates(env, cfg, MemCode(Amx.LoadI), x, b)
  {
    IndexLoad(env, cfg, a, x, EAX);
    Seq1(env, Mov(R(EAX), Mm(Index(EBX, EAX, 0))), x);
    CoreAcc(env, cfg, Amx.PRI, Amx.LoadCell(a.mem, a.pri).value, a, x);
  }

  lemma SimLodbI(env: Env, cfg: Amx.Cfg, n: Word, a: Amx.State, x: State, b: Amx.State)
    requires Consistent(env, cfg) && Core(env, cfg, a, x)
    requires Amx.ApplyMem(cfg, Amx.LodbI(n), a) == Some(b)
    ensures Simulates(env, cfg, MemCode(Amx.LodbI(n)), x, b)
  {
    if n == 4 {
      SimLoadI(env, cfg, a, x, b);
    } else {
      assert Sub(Add(env.base, a.pri), env.base) == a.pri;
      Seq1(env, MovZx(EAX, Index(EBX, EAX, 0), n), x);
      CoreAcc(env, cfg, Amx.PRI, Amx.LoadLow(a.mem, a.pri, n).value, a, x);
    }
  }

  lemma SimConst(env: Env, cfg: Amx.Cfg, r: Amx.Acc, v: Word, a: Amx.State, x: State, b: Amx.State)
    requires Consistent(env, cfg) && Core(env, cfg, a, x)
    requires Amx.ApplyMem(cfg, Amx.Const(r, v), a) == Some(b)
    ensures Simulates(env, cfg, MemCode(Amx.Const(r, v)), x, b)
  {
    if v == 0 {
      BitsSelf(Get(x.regs, RegOf(r)));
      Seq1(env, Alu(XorOp, R(RegOf(r)), R(RegOf(r))), x);
      CoreAcc(env, cfg, r, 0, a, Undef(x));
    } else {
      Seq1(env, Mov(R(RegOf(r)), I(v)), x);
      CoreAcc(env, cfg, r, v, a, x);
    }
  }

  lemma EffAddr(env: Env, r: Reg, o: Word, x: State)
    requires r != EBX
    ensures Effects(env, [Lea(r, At(EBP, o)), Alu(SubOp, R(r), R(EBX))], x)
         == Some(SetReg(Undef(x), r, Sub(Add(x.regs.ebp, o), x.regs.ebx)))
  {
    Seq2(env, Lea(r, At(EBP, o)), Alu(SubOp, R(r), R(EBX)), x);
  }

  lemma SimAddr(env: Env, cfg: Amx.Cfg, r: Amx.Acc, o: Word, a: Amx.State, x: State, b: Amx.State)
    requires Consistent(env, cfg) && Core(env, cfg, a, x)
    requires Amx.ApplyMem(cfg, Amx.Addr(r, o), a) == Some(b)
    ensures Simulates(env, cfg, MemCode(Amx.Addr(r, o)), x, b)
  {
    Rebase(env.base, a.frm, o);
    EffAddr(env, RegOf(r), o, x);
    CoreAcc(env, cfg, r, Add(a.frm, o), a, Undef(x));
  }

  lemma SimStor(env: Env, cfg: Amx.Cfg, r: Amx.Acc, m: Amx.Mode, o: Word, a: Amx.State, x: State, b: Amx.State)
    requires Consistent(env, cfg) && Core(env, cfg, a, x)
    requires Amx.ApplyMem(cfg, Amx.Stor(r, m, o), a) == Some(b)
    ensures Simulates(env, cfg, MemCode(Amx.Stor(r, m, o)), x, b)
  {
    PlaceStore(env, cfg, a, x, m, o, Amx.GetAcc(a, r), b);
    Seq1(env, Mov(Mm(Place(m, o)), R(RegOf(r))), x);
  }

  lemma EffSRef(env: Env, r: Reg, m: Mem, x: State, at: Word, t: State)
    requires r != EDX && LoadMem(env, x, m) == Some(at)
    requires StoreMem(env, SetReg(x, EDX, at), Index(EBX, EDX, 0), Get(x.regs, r)) == Some(t)
    ensures Effects(env, [Mov(R(EDX), Mm(m)), Mov(Mm(Index(EBX, EDX, 0)), R(r))], x) == Some(t)
  {
    Seq2(env, Mov(R(EDX), Mm(m)), Mov(Mm(Index(EBX, EDX, 0)), R(r)), x);
  }

  lemma SimSRef(env: Env, cfg: Amx.Cfg, r: Amx.Acc, m: Amx.Mode, o: Word, a: Amx.State, x: State, b: Amx.State)
    requires Consistent(env, cfg) && Core(env, cfg, a, x)
    requires Amx.ApplyMem(cfg, Amx.SRef(r, m, o), a) == Some(b)
    ensures Simulates(env, cfg, MemCode(Amx.SRef(r, m, o)), x, b)
  {
    var at := Amx.LoadCell(a.mem, Amx.Ea(a, m, o)).value;
    PlaceLoad(env, cfg, a, x, m, o);
    CoreScratch(env, cfg, a, x, at, x.regs.esi, x.regs.edi, x.fl);
    var y := SetReg(x, EDX, at);
    IndexStore(env, cfg, a, y, EDX, Amx.GetAcc(a, r), b);
    EffSRef(env, RegOf(r), Place(m, o), x, at, Stored(y, at, Amx.GetAcc(a, r)));
  }

  lemma SimStorI(env: Env, cfg: Amx.Cfg, a: Amx.State, x: State, b: Amx.State)
    requires Consistent(env, cfg) && Core(env, cfg, a, x)
    requires Amx.Put(cfg, a, a.alt, a.pri) == Some(b)
    ensures Simulates(env, cfg, MemCode(Amx.StorI), x, b)
  {
    IndexStore(env, cfg, a, x, ECX, a.pri, b);
    Seq1(env, Mov(Mm(Index(EBX, ECX, 0)), R(EAX)), x);
  }

  function LowBytes(d: Data, at: int, v: Word, n: Word): Data {
    if n == 1 then d[at := ByteOf(v, 0)] else d[at := ByteOf(v, 0)][at + 1 := ByteOf(v, 1)]
  }

  lemma EffStrb(env: Env, n: Word, x: State, at: Word)
    requires n == 1 || n == 2
    requires Sub(Add(x.regs.ebx, x.regs.ecx), env.base) == at
    requires at in x.data && (n == 2 ==> at + 1 in x.data)
    ensures Effects(env, [MovLow(Index(EBX, ECX, 0), EAX, n)], x) == Some(x.(data := LowBytes(x.data, at, x.regs.eax, n)))
  {
    Seq1(env, MovLow(Index(EBX, ECX, 0), EAX, n), x);
  }

  lemma LowBytesRel(env: Env, cfg: Amx.Cfg, a: Amx.State, d: Data, at: int, v: Word, n: Word, b: Amx.State)
    requires MemRel(env, cfg, a.mem, d)
    requires Amx.PutLow(cfg, a, at, v, n) == Some(b)
    ensures MemRel(env, cfg, b.mem, LowBytes(d, at, v, n))
    ensures at in d && (n == 2 ==> at + 1 in d)
  {
  }

  lemma SimStrbLow(env: Env, cfg: Amx.Cfg, n: Word, a: Amx.State, x: State, b: Amx.State)
    requires Consistent(env, cfg) && Core(env, cfg, a, x)
    requires Amx.PutLow(cfg, a, a.alt, a.pri, n) == Some(b)
    ensures Simulates(env, cfg, [MovLow(Index(EBX, ECX, 0), EAX, n)], x, b)
  {
    assert Sub(Add(env.base, a.alt), env.base) == a.alt;
    LowBytesRel(env, cfg, a, x.data, a.alt, a.pri, n, b);
    EffStrb(env, n, x, a.alt);
    CoreData(env, cfg, a, x, b.mem, LowBytes(x.data, a.alt, a.pri, n));
  }

  lemma SimStrbI(env: Env, cfg: Amx.Cfg, n: Word, a: Amx.State, x: State, b: Amx.State)
    requires Consistent(env, cfg) && Core(env, cfg, a, x)
    requires Amx.ApplyMem(cfg, Amx.StrbI(n), a) == Some(b)
    ensures Simulates(env, cfg, MemCode(Amx.StrbI(n)), x, b)
  {
    if n == 4 {
      assert MemCode(Amx.StrbI(n)) == MemCode(Amx.StorI);
      SimStorI(env, cfg, a, x, b);
    } else {
      assert MemCode(Amx.StrbI(n)) == [MovLow(Index(EBX, ECX, 0), EAX, n)];
      SimStrbLow(env, cfg, n, a, x, b);
    }
  }

  lemma {:induction false} DoublesWrap(v: Word, k: nat)
    ensures Scaled(v, k) == Wrap(v * Pow2(k))
  {
    if k > 0 {
      DoublesWrap(v, k - 1);
      TwiceWrap(v * Pow2(k - 1));
      assert v * Pow2(k) == 2 * (v * Pow2(k - 1));
    }
  }

  lemma TwiceWrap(n: int)
    ensures Add(Wrap(n), Wrap(n)) == Wrap(2 * n)
  {
    WrapAdd(Wrap(n), n);
    WrapAdd(0, n);
    var q := n / M;
    WrapUnique(Wrap(n) + n, Wrap(Wrap(n) + n), (Wrap(n) + n) / M);
    assert 2 * n == q * M + (Wrap(n) + n);
    WrapUnique(2 * n, Wrap(Wrap(n) + n), q + (Wrap(n) + n) / M);
  }

  lemma ScaledIs(base: Word, v: Word, k: nat)
    ensures Add(base, Scaled(v, k)) == Wrap(base + v * Pow2(k))
  {
    DoublesWrap(v, k);
    WrapAdd(base, v * Pow2(k));
  }

  lemma EffLidx(env: Env, k: nat, x: State, v: Word)
    requires LoadAt(env, SetReg(x, EDX, Add(x.regs.ebx, x.regs.ecx)),
                    Add(Add(x.regs.ebx, x.regs.ecx), Scaled(x.regs.eax, k))) == Some(v)
    ensures Effects(env, [Lea(EDX, Index(EBX, ECX, 0)), Mov(R(EAX), Mm(Index(EDX, EAX, k)))], x)
         == Some(SetReg(SetReg(x, EDX, Add(x.regs.ebx, x.regs.ecx)), EAX, v))
  {
    Seq2(env, Lea(EDX, Index(EBX, ECX, 0)), Mov(R(EAX), Mm(Index(EDX, EAX, k))), x);
  }

  lemma SimLidx(env: Env, cfg: Amx.Cfg, k: Word, a: Amx.State, x: State, b: Amx.State)
    requires Consistent(env, cfg) && Core(env, cfg, a, x)
    requires Amx.ApplyMem(cfg, Amx.LidxB(k), a) == Some(b)
    ensures Simulates(env, cfg, MemCode(Amx.LidxB(k)), x, b)
  {
    var edx := Add(env.base, a.alt);
    var at := Amx.Indexed(a, k);
    var v := Amx.LoadCell(a.mem, at).value;
    CoreScratch(env, cfg, a, x, edx, x.regs.esi, x.regs.edi, x.fl);
    var y := SetReg(x, EDX, edx);
    ScaledIs(a.alt, a.pri, k);
    Rebase(env.base, a.alt, Scaled(a.pri, k));
    LoadRel(env, cfg, a, y, at);
    EffLidx(env, k, x, v);
    CoreAcc(env, cfg, Amx.PRI, v, a, y);
  }

  lemma SimIdxAddr(env: Env, cfg: Amx.Cfg, k: Word, a: Amx.State, x: State, b: Amx.State)
    requires Consistent(env, cfg) && Core(env, cfg, a, x)
    requires Amx.ApplyMem(cfg, Amx.IdxAddrB(k), a) == Some(b)
    ensures Simulates(env, cfg, MemCode(Amx.IdxAddrB(k)), x, b)
  {
    ScaledIs(a.alt, a.pri, k);
    Seq1(env, Lea(EAX, Index(ECX, EAX, k)), x);
    CoreAcc(env, cfg, Amx.PRI, Amx.Indexed(a, k), a, x);
  }

  lemma SimZeroM(env: Env, cfg: Amx.Cfg, m: Amx.Mode, o: Word, a: Amx.State, x: State, b: Amx.State)
    requires Consistent(env, cfg) && Core(env, cfg, a, x)
    requires Amx.ApplyMem(cfg, Amx.ZeroM(m, o), a) == Some(b)
    ensures Simulates(env, cfg, MemCode(Amx.ZeroM(m, o)), x, b)
  {
    PlaceStore(env, cfg, a, x, m, o, 0, b);
    Seq1(env, Mov(Mm(Place(m, o)), I(0)), x);
  }

  lemma WrapUnit(v: Word)
    ensures Wrap(v + 1) == Add(v, 1)
    ensures Wrap(v + -1) == Sub(v, 1)
    ensures Wrap(v - 1) == Sub(v, 1)
  {
  }

  lemma EffInc(env: Env, m: Mem, up: bool, x: State, v: Word, t: State)
    requires LoadMem(env, x, m) == Some(v)
    requires StoreMem(env, Undef(x), m, if up then Add(v, 1) else Sub(v, 1)) == Some(t)
    ensures Effects(env, [if up then Inc(Mm(m)) else Dec(Mm(m))], x) == Some(t)
  {
    Seq1(env, if up then Inc(Mm(m)) else Dec(Mm(m)), x);
  }

  lemma SimIncM(env: Env, cfg: Amx.Cfg, m: Amx.Mode, o: Word, up: bool, a: Amx.State, x: State, b: Amx.State)
    requires Consistent(env, cfg) && Core(env, cfg, a, x)
    requires Amx.AddTo(cfg, a, Amx.Ea(a, m, o), if up then 1 else -1) == Some(b)
    ensures Simulates(env, cfg, [if up then Inc(Mm(Place(m, o))) else Dec(Mm(Place(m, o)))], x, b)
  {
    var v := Amx.LoadCell(a.mem, Amx.Ea(a, m, o)).value;
    var w := if up then Add(v, 1) else Sub(v, 1);
    WrapUnit(v);
    PlaceLoad(env, cfg, a, x, m, o);
    CoreScratch(env, cfg, a, x, x.regs.edx, x.regs.esi, x.regs.edi, NoFlags);
    PlaceStore(env, cfg, a, Undef(x), m, o, w, b);
    EffInc(env, Place(m, o), up, x, v, Stored(Undef(x), Amx.Ea(a, m, o), w));
  }

  lemma SimIncI(env: Env, cfg: Amx.Cfg, up: bool, a: Amx.State, x: State, b: Amx.State)
    requires Consistent(env, cfg) && Core(env, cfg, a, x)
    requires Amx.AddTo(cfg, a, a.pri, if up then 1 else -1) == Some(b)
    ensures Simulates(env, cfg, [if up then Inc(Mm(Index(EBX, EAX, 0))) else Dec(Mm(Index(EBX, EAX, 0)))], x, b)
  {
    var v := Amx.LoadCell(a.mem, a.pri).value;
    var w := if up then Add(v, 1) else Sub(v, 1);
    WrapUnit(v);
    IndexLoad(env, cfg, a, x, EAX);
    CoreScratch(env, cfg, a, x, x.regs.edx, x.regs.esi, x.regs.edi, NoFlags);
    IndexStore(env, cfg, a, Undef(x), EAX, w, b);
    EffInc(env, Index(EBX, EAX, 0), up, x, v, Stored(Undef(x), a.pri, w));
  }

  lemma MemSimulated(env: Env, cfg: Amx.Cfg, op: Amx.MemOp, a: Amx.State, x: State, b: Amx.State)
    requires Consistent(env, cfg) && Core(env, cfg, a, x)
    requires Amx.ApplyMem(cfg, op, a) == Some(b)
    ensures Simulates(env, cfg, MemCode(op), x, b)
  {
    match op
    case Load(r, m, o) => SimLoad(env, cfg, r, m, o, a, x, b);
    case LRef(r, m, o) => SimLRef(env, cfg, r, m, o, a, x, b);
    case LoadI => SimLoadI(env, cfg, a, x, b);
    case LodbI(n) => SimLodbI(env, cfg, n, a, x, b);
    case Const(r, v) => SimConst(env, cfg, r, v, a, x, b);
    case Addr(r, o) => SimAddr(env, cfg, r, o, a, x, b);
    case Stor(r, m, o) => SimStor(env, cfg, r, m, o, a, x, b);
    case SRef(r, m, o) => SimSRef(env, cfg, r, m, o, a, x, b);
    case StorI => SimStorI(env, cfg, a, x, b);
    case StrbI(n) => SimStrbI(env, cfg, n, a, x, b);
    case Lidx => SimLidx(env, cfg, 2, a, x, b);
    case LidxB(k) => SimLidx(env, cfg, k, a, x, b);
    case IdxAddr => SimIdxAddr(env, cfg, 2, a, x, b);
    case IdxAddrB(k) => SimIdxAddr(env, cfg, k, a, x, b);
    case ZeroM(m, o) => SimZeroM(env, cfg, m, o, a, x, b);
    case IncM(m, o) => SimIncM(env, cfg, m, o, true, a, x, b);
    case IncI => SimIncI(env, cfg, true, a, x, b);
    case DecM(m, o) => SimIncM(env, cfg, m, o, false, a, x, b);
    case DecI => SimIncI(env, cfg, false, a, x, b);
  }
}
