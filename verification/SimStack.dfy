/** Stack, heap and special-register operations run as the machine specifies. */
module SimStack {
  import opened Word32
  import opened X86
  import Amx
  import opened Emit
  import opened Relation
  import SimMem
  import SimAcc

  /** The state after a push of v. */
  function Pushed(x: State, at: int, v: Word): State {
    x.(regs := x.regs.(esp := Sub(x.regs.esp, 4)), data := Store4(x.data, at, v))
  }

  lemma StackAddress(base: Word, stk: Word)
    ensures Sub(Add(base, stk), 4) == Add(base, Sub(stk, 4))
    ensures Add(Add(base, stk), 4) == Add(base, Add(stk, 4))
    ensures Sub(Add(base, Sub(stk, 4)), base) == Sub(stk, 4)
    ensures Add(Add(base, stk), 0) == Add(base, stk)
  {
  }

  lemma PushRel(env: Env, cfg: Amx.Cfg, a: Amx.State, x: State, v: Word, b: Amx.State)
    requires Consistent(env, cfg) && Core(env, cfg, a, x)
    requires Amx.PushCell(cfg, a, v) == Some(b)
    ensures var y := Pushed(x, Sub(a.stk, 4), v);
            PushWord(env, x, v) == Some(y) && Core(env, cfg, b, y) && Frame(x, y)
  {
    var sp := Sub(a.stk, 4);
    StackAddress(env.base, a.stk);
    StoreRel(env, cfg, a.mem, x.(regs := x.regs.(esp := Add(env.base, sp))), sp, v);
  }

  lemma SimPush(env: Env, cfg: Amx.Cfg, src: Opd, v: Word, a: Amx.State, x: State, b: Amx.State)
    requires Consistent(env, cfg) && Core(env, cfg, a, x)
    requires Read(env, x, src) == Some(v)
    requires Amx.PushCell(cfg, a, v) == Some(b)
    ensures Simulates(env, cfg, [Push(src)], x, b)
  {
    PushRel(env, cfg, a, x, v, b);
    Seq1(env, Push(src), x);
    assert Effect(env, Push(src), x) == Some(Pushed(x, Sub(a.stk, 4), v));
  }

  lemma SimPushM(env: Env, cfg: Amx.Cfg, m: Amx.Mode, o: Word, a: Amx.State, x: State, b: Amx.State)
    requires Consistent(env, cfg) && Core(env, cfg, a, x)
    requires Amx.ApplyStack(cfg, Amx.PushM(m, o), 0, a) == Some(b)
    ensures Simulates(env, cfg, [Push(Mm(Place(m, o)))], x, b)
  {
    SimMem.PlaceLoad(env, cfg, a, x, m, o);
    SimPush(env, cfg, Mm(Place(m, o)), Amx.LoadCell(a.mem, Amx.Ea(a, m, o)).value, a, x, b);
  }

  lemma SimPushAdr(env: Env, cfg: Amx.Cfg, o: Word, a: Amx.State, x: State, b: Amx.State)
    requires Consistent(env, cfg) && Core(env, cfg, a, x)
    requires Amx.PushCell(cfg, a, Add(a.frm, o)) == Some(b)
    ensures Simulates(env, cfg, [Lea(EDX, At(EBP, o)), Alu(SubOp, R(EDX), R(EBX)), Push(R(EDX))], x, b)
  {
    var c1, c2 := [Lea(EDX, At(EBP, o)), Alu(SubOp, R(EDX), R(EBX))], [Push(R(EDX))];
    assert [Lea(EDX, At(EBP, o)), Alu(SubOp, R(EDX), R(EBX)), Push(R(EDX))] == c1 + c2;
    SeqAppend(env, c1, c2, x);
    SimMem.EffAddr(env, EDX, o, x);
    Rebase(env.base, a.frm, o);
    var y := SetReg(Undef(x), EDX, Add(a.frm, o));
    assert y == Scratch(x, Add(a.frm, o), x.regs.esi, x.regs.edi, NoFlags);
    CoreScratch(env, cfg, a, x, Add(a.frm, o), x.regs.esi, x.regs.edi, NoFlags);
    SimPush(env, cfg, R(EDX), Add(a.frm, o), a, y, b);
  }

  /** Raising STK leaves the correspondence as it is. */
  lemma CoreStk(env: Env, cfg: Amx.Cfg, a: Amx.State, x: State, stk: Word)
    requires Core(env, cfg, a, x)
    ensures var y := SetReg(x, ESP, Add(env.base, stk));
            Core(env, cfg, Amx.SetStk(a, stk), y) && Frame(x, y)
  {
  }

  lemma DoPopIs(env: Env, r: Reg, x: State, v: Word)
    requires LoadAt(env, x, x.regs.esp) == Some(v)
    ensures DoPop(env, R(r), x) == Some(SetReg(SetReg(x, ESP, Add(x.regs.esp, 4)), r, v))
  {
  }

  lemma EffPop(env: Env, r: Reg, x: State, v: Word)
    requires LoadAt(env, x, x.regs.esp) == Some(v)
    requires r == EAX || r == ECX || r == EDX || r == EBP
    ensures Effect(env, Pop(R(r)), x) == Some(SetReg(SetReg(x, ESP, Add(x.regs.esp, 4)), r, v))
  {
    DoPopIs(env, r, x, v);
  }

  lemma PopRel(env: Env, cfg: Amx.Cfg, a: Amx.State, x: State, r: Reg)
    requires Consistent(env, cfg) && Core(env, cfg, a, x)
    requires r == EAX || r == ECX || r == EDX || r == EBP
    requires Amx.LoadCell(a.mem, a.stk).Some?
    ensures Effect(env, Pop(R(r)), x)
         == Some(SetReg(SetReg(x, ESP, Add(env.base, Add(a.stk, 4))), r, Amx.LoadCell(a.mem, a.stk).value))
    ensures Core(env, cfg, Amx.SetStk(a, Add(a.stk, 4)), SetReg(x, ESP, Add(env.base, Add(a.stk, 4))))
    ensures Frame(x, SetReg(x, ESP, Add(env.base, Add(a.stk, 4))))
  {
    LoadRel(env, cfg, a, x, a.stk);
    StackAddress(env.base, a.stk);
    EffPop(env, r, x, Amx.LoadCell(a.mem, a.stk).value);
    CoreStk(env, cfg, a, x, Add(a.stk, 4));
  }

  lemma SimPop(env: Env, cfg: Amx.Cfg, r: Amx.Acc, a: Amx.State, x: State, b: Amx.State)
    requires Consistent(env, cfg) && Core(env, cfg, a, x)
    requires Amx.ApplyStack(cfg, Amx.PopAcc(r), 0, a) == Some(b)
    ensures Simulates(env, cfg, [Pop(R(RegOf(r)))], x, b)
  {
    PopRel(env, cfg, a, x, RegOf(r));
    Seq1(env, Pop(R(RegOf(r))), x);
    CoreAcc(env, cfg, r, Amx.LoadCell(a.mem, a.stk).value, Amx.SetStk(a, Add(a.stk, 4)), SetReg(x, ESP, Add(env.base, Add(a.stk, 4))));
  }

  lemma MoveStack(base: Word, stk: Word, v: Word)
    ensures (if Int(v) >= 0 then Add(Add(base, stk), v) else Sub(Add(base, stk), Neg(v))) == Add(base, Wrap(stk + Int(v)))
  {
    SimAcc.WrapConst(stk, v);
    SimAcc.WrapConst(Add(base, stk), v);
    WrapAdd(base, stk + Int(v));
  }

  lemma EffStack(env: Env, v: Word, x: State)
    ensures Effects(env, [Mov(R(ECX), R(ESP)), Alu(SubOp, R(ECX), R(EBX)), AddConst(R(ESP), v)], x)
         == Some(Undef(x).(regs := x.regs.(
              ecx := Sub(x.regs.esp, x.regs.ebx),
              esp := if Int(v) >= 0 then Add(x.regs.esp, v) else Sub(x.regs.esp, Neg(v)))))
  {
    Seq3(env, Mov(R(ECX), R(ESP)), Alu(SubOp, R(ECX), R(EBX)), AddConst(R(ESP), v), x);
  }

  lemma EffStackAt(env: Env, v: Word, x: State, stk: Word)
    requires x.regs.ebx == env.base && x.regs.esp == Add(env.base, stk)
    ensures Effects(env, [Mov(R(ECX), R(ESP)), Alu(SubOp, R(ECX), R(EBX)), AddConst(R(ESP), v)], x)
         == Some(SetReg(SetReg(Undef(x), ECX, stk), ESP, Add(env.base, Wrap(stk + Int(v)))))
  {
    MoveStack(env.base, stk, v);
    assert Sub(Add(env.base, stk), env.base) == stk;
    EffStack(env, v, x);
  }

  lemma CoreStackOp(env: Env, cfg: Amx.Cfg, a: Amx.State, x: State, stk: Word)
    requires Core(env, cfg, a, x)
    ensures var y := SetReg(SetReg(Undef(x), ECX, a.stk), ESP, Add(env.base, stk));
            Core(env, cfg, Amx.SetStk(a.(alt := a.stk), stk), y) && Frame(x, y)
  {
    CoreScratch(env, cfg, a, x, x.regs.edx, x.regs.esi, x.regs.edi, NoFlags);
    CoreAcc(env, cfg, Amx.ALT, a.stk, a, Undef(x));
    CoreStk(env, cfg, a.(alt := a.stk), SetReg(Undef(x), ECX, a.stk), stk);
  }

  lemma SimStackOp(env: Env, cfg: Amx.Cfg, v: Word, a: Amx.State, x: State)
    requires Consistent(env, cfg) && Core(env, cfg, a, x)
    ensures Simulates(env, cfg, [Mov(R(ECX), R(ESP)), Alu(SubOp, R(ECX), R(EBX)), AddConst(R(ESP), v)], x,
                      Amx.SetStk(a.(alt := a.stk), Wrap(a.stk + Int(v))))
  {
    EffStackAt(env, v, x, a.stk);
    CoreStackOp(env, cfg, a, x, Wrap(a.stk + Int(v)));
  }

  /** A new heap top with possibly less memory specified. */
  lemma CoreHeap(env: Env, cfg: Amx.Cfg, a: Amx.State, x: State, hea: Word, m: Amx.Memory)
    requires Core(env, cfg, a, x)
    requires forall k :: k in m ==> k in a.mem && m[k] == a.mem[k]
    ensures var y := x.(amx := x.amx.(hea := hea));
            Core(env, cfg, a.(hea := hea, mem := m), y) && Frame(x, y)
  {
  }

  lemma EffHeap(env: Env, v: Word, x: State)
    requires x.rib.amx == env.amxPtr
    ensures Effects(env, [Mov(R(EDX), Mm(Rib(RibAmx))), Mov(R(ECX), Mm(Amx(EDX, AHea))), AddConst(Mm(Amx(EDX, AHea)), v)], x)
         == Some(Undef(x).(regs := x.regs.(edx := env.amxPtr, ecx := x.amx.hea),
                           amx := x.amx.(hea := if Int(v) >= 0 then Add(x.amx.hea, v) else Sub(x.amx.hea, Neg(v)))))
  {
    Seq3(env, Mov(R(EDX), Mm(Rib(RibAmx))), Mov(R(ECX), Mm(Amx(EDX, AHea))), AddConst(Mm(Amx(EDX, AHea)), v), x);
  }

  lemma EffHeapAt(env: Env, v: Word, x: State, hea: Word)
    requires x.rib.amx == env.amxPtr && x.amx.hea == hea
    ensures Effects(env, [Mov(R(EDX), Mm(Rib(RibAmx))), Mov(R(ECX), Mm(Amx(EDX, AHea))), AddConst(Mm(Amx(EDX, AHea)), v)], x)
         == Some(SetReg(SetReg(Undef(x), EDX, env.amxPtr), ECX, hea).(amx := x.amx.(hea := Wrap(hea + Int(v)))))
  {
    SimAcc.WrapConst(hea, v);
    EffHeap(env, v, x);
  }

  lemma CoreHeapOp(env: Env, cfg: Amx.Cfg, a: Amx.State, x: State, hea: Word)
    requires Core(env, cfg, a, x)
    ensures var y := SetReg(SetReg(Undef(x), EDX, env.amxPtr), ECX, a.hea).(amx := x.amx.(hea := hea));
            Core(env, cfg, a.(alt := a.hea, hea := hea, mem := Amx.Forget(a.mem, hea, a.hea)), y) && Frame(x, y)
  {
    CoreScratch(env, cfg, a, x, env.amxPtr, x.regs.esi, x.regs.edi, NoFlags);
    var y := Scratch(x, env.amxPtr, x.regs.esi, x.regs.edi, NoFlags);
    CoreAcc(env, cfg, Amx.ALT, a.hea, a, y);
    CoreHeap(env, cfg, a.(alt := a.hea), SetReg(y, ECX, a.hea), hea, Amx.Forget(a.mem, hea, a.hea));
  }

  lemma SimHeap(env: Env, cfg: Amx.Cfg, v: Word, a: Amx.State, x: State)
    requires Consistent(env, cfg) && Core(env, cfg, a, x)
    ensures var hea := Wrap(a.hea + Int(v));
            Simulates(env, cfg, [Mov(R(EDX), Mm(Rib(RibAmx))), Mov(R(ECX), Mm(Amx(EDX, AHea))), AddConst(Mm(Amx(EDX, AHea)), v)], x,
                      a.(alt := a.hea, hea := hea, mem := Amx.Forget(a.mem, hea, a.hea)))
  {
    EffHeapAt(env, v, x, a.hea);
    CoreHeapOp(env, cfg, a, x, Wrap(a.hea + Int(v)));
  }

  // ---- PROC ------------------------------------------------------------------

  lemma EffProcTail(env: Env, y: State, v: Word, z: State)
    requires LoadAt(env, SetReg(y, EBP, y.regs.esp), Add(y.regs.esp, 0)) == Some(v)
    requires StoreAt(env, Undef(SetReg(y, EBP, y.regs.esp)), Add(y.regs.esp, 0), Sub(v, y.regs.ebx)) == Some(z)
    ensures Effects(env, [Mov(R(EBP), R(ESP)), Alu(SubOp, Mm(At(ESP, 0)), R(EBX))], y) == Some(z)
  {
    Seq2(env, Mov(R(EBP), R(ESP)), Alu(SubOp, Mm(At(ESP, 0)), R(EBX)), y);
  }

  lemma EffProc(env: Env, x: State, y: State, z: State)
    requires PushWord(env, x, x.regs.ebp) == Some(y)
    requires LoadAt(env, SetReg(y, EBP, y.regs.esp), Add(y.regs.esp, 0)) == Some(x.regs.ebp)
    requires StoreAt(env, Undef(SetReg(y, EBP, y.regs.esp)), Add(y.regs.esp, 0), Sub(x.regs.ebp, y.regs.ebx)) == Some(z)
    ensures Effects(env, [Push(R(EBP)), Mov(R(EBP), R(ESP)), Alu(SubOp, Mm(At(ESP, 0)), R(EBX))], x) == Some(z)
  {
    var c := [Mov(R(EBP), R(ESP)), Alu(SubOp, Mm(At(ESP, 0)), R(EBX))];
    assert [Push(R(EBP)), Mov(R(EBP), R(ESP)), Alu(SubOp, Mm(At(ESP, 0)), R(EBX))] == [Push(R(EBP))] + c;
    SeqCons(env, Push(R(EBP)), c, x);
    assert Effect(env, Push(R(EBP)), x) == PushWord(env, x, x.regs.ebp);
    EffProcTail(env, y, x.regs.ebp, z);
  }

  lemma ReadBack(d: Data, at: int, v: Word)
    ensures Has4(Store4(d, at, v), at) && Load4(Store4(d, at, v), at) == v
  {
    JoinOfBytes(v);
  }

  lemma Overwrite(d: Data, at: int, v: Word, w: Word)
    ensures Store4(Store4(d, at, v), at, w) == Store4(d, at, w)
  {
  }

  /** The frame pointer a procedure saves. */
  lemma SimProc(env: Env, cfg: Amx.Cfg, a: Amx.State, x: State, b: Amx.State)
    requires Consistent(env, cfg) && Core(env, cfg, a, x)
    requires Amx.ApplyStack(cfg, Amx.Proc, 0, a) == Some(b)
    ensures Simulates(env, cfg, [Push(R(EBP)), Mov(R(EBP), R(ESP)), Alu(SubOp, Mm(At(ESP, 0)), R(EBX))], x, b)
  {
    var sp := Sub(a.stk, 4);
    StackAddress(env.base, a.stk);
    var y := Pushed(x, sp, x.regs.ebp);
    var t := Amx.PushCell(cfg, a, a.frm).value;
    PushRel(env, cfg, a, x, a.frm, t);
    assert PushWord(env, x, x.regs.ebp) == Some(y);
    ReadBack(x.data, sp, x.regs.ebp);
    Overwrite(x.data, sp, x.regs.ebp, a.frm);
    var u := Undef(SetReg(y, EBP, y.regs.esp));
    var z := u.(data := Store4(x.data, sp, a.frm));
    assert Add(y.regs.esp, 0) == Add(env.base, sp);
    assert Sub(x.regs.ebp, y.regs.ebx) == a.frm;
    assert Has4(y.data, sp);
    EffProc(env, x, y, z);
    CoreProc(env, cfg, t, Pushed(x, sp, a.frm), z);
  }

  lemma CoreProc(env: Env, cfg: Amx.Cfg, t: Amx.State, p: State, z: State)
    requires Core(env, cfg, t, p)
    requires z == Undef(SetReg(p, EBP, p.regs.esp))
    ensures Core(env, cfg, t.(frm := t.stk), z) && Frame(p, z)
  {
  }

  lemma EffSwap(env: Env, r: Reg, x: State, v: Word, y: State)
    requires r == EAX || r == ECX
    requires LoadAt(env, x, Add(x.regs.esp, 0)) == Some(v)
    requires StoreAt(env, x, Add(x.regs.esp, 0), Get(x.regs, r)) == Some(y)
    ensures Effects(env, [Xchg(Mm(At(ESP, 0)), r)], x) == Some(SetReg(y, r, v))
  {
    Seq1(env, Xchg(Mm(At(ESP, 0)), r), x);
  }

  lemma SimSwap(env: Env, cfg: Amx.Cfg, r: Amx.Acc, a: Amx.State, x: State, b: Amx.State)
    requires Consistent(env, cfg) && Core(env, cfg, a, x)
    requires Amx.ApplyStack(cfg, Amx.Swap(r), 0, a) == Some(b)
    ensures Simulates(env, cfg, [Xchg(Mm(At(ESP, 0)), RegOf(r))], x, b)
  {
    var v := Amx.LoadCell(a.mem, a.stk).value;
    var t := Amx.Put(cfg, a, a.stk, Amx.GetAcc(a, r)).value;
    StackAddress(env.base, a.stk);
    LoadRel(env, cfg, a, x, a.stk);
    StoreRel(env, cfg, a.mem, x, a.stk, Amx.GetAcc(a, r));
    var y := x.(data := Store4(x.data, a.stk, Amx.GetAcc(a, r)));
    EffSwap(env, RegOf(r), x, v, y);
    CoreData(env, cfg, a, x, t.mem, y.data);
    CoreAcc(env, cfg, r, v, t, y);
  }

  // ---- special registers -----------------------------------------------------

  lemma EffHeader(env: Env, h: HdrField, x: State)
    requires x.rib.amx == env.amxPtr
    ensures Effects(env, [Mov(R(EAX), Mm(Rib(RibAmx))), Mov(R(EAX), Mm(Amx(EAX, ABase))), Mov(R(EAX), Mm(Hdr(EAX, h)))], x)
         == Some(SetReg(x, EAX, if h == HCod then env.cod else env.dat))
  {
    Seq3(env, Mov(R(EAX), Mm(Rib(RibAmx))), Mov(R(EAX), Mm(Amx(EAX, ABase))), Mov(R(EAX), Mm(Hdr(EAX, h))), x);
  }

  lemma EffField(env: Env, f: AmxField, x: State)
    requires x.rib.amx == env.amxPtr
    ensures Effects(env, [Mov(R(EAX), Mm(Rib(RibAmx))), Mov(R(EAX), Mm(Amx(EAX, f)))], x) == Some(SetReg(x, EAX, GetAmx(x.amx, f)))
  {
    Seq2(env, Mov(R(EAX), Mm(Rib(RibAmx))), Mov(R(EAX), Mm(Amx(EAX, f))), x);
  }

  lemma EffRelative(env: Env, r: Reg, x: State)
    requires r == ESP || r == EBP
    ensures Effects(env, [Mov(R(EAX), R(r)), Alu(SubOp, R(EAX), R(EBX))], x)
         == Some(SetReg(Undef(x), EAX, Sub(Get(x.regs, r), x.regs.ebx)))
  {
    Seq2(env, Mov(R(EAX), R(r)), Alu(SubOp, R(EAX), R(EBX)), x);
  }

  lemma EffImm(env: Env, v: Word, x: State)
    ensures Effects(env, [Mov(R(EAX), I(v))], x) == Some(SetReg(x, EAX, v))
  {
    Seq1(env, Mov(R(EAX), I(v)), x);
  }

  lemma SimLCtrl(env: Env, cfg: Amx.Cfg, k: Word, next: int, a: Amx.State, x: State, v: Word)
    requires Consistent(env, cfg) && Core(env, cfg, a, x)
    requires Amx.Control(cfg, next, a, k) == Some(v)
    ensures Simulates(env, cfg, LCtrlCode(next, k), x, a.(pri := v))
  {
    var y := if k == 4 || k == 5 then Undef(x) else x;
    CoreScratch(env, cfg, a, x, x.regs.edx, x.regs.esi, x.regs.edi, y.fl);
    CoreAcc(env, cfg, Amx.PRI, v, a, y);
    assert Sub(Add(env.base, a.stk), env.base) == a.stk && Sub(Add(env.base, a.frm), env.base) == a.frm;
    if k == 0 { EffHeader(env, HCod, x); }
    else if k == 1 { EffHeader(env, HDat, x); }
    else if k == 2 { EffField(env, AHea, x); }
    else if k == 3 { EffField(env, AStp, x); }
    else if k == 4 { EffRelative(env, ESP, x); }
    else if k == 5 { EffRelative(env, EBP, x); }
    else if k == 6 { EffImm(env, Wrap(next), x); }
    else if k == 7 { EffImm(env, 1, x); }
    assert Effects(env, LCtrlCode(next, k), x) == Some(SetReg(y, EAX, v));
  }

  lemma EffSetHeap(env: Env, x: State)
    requires x.rib.amx == env.amxPtr
    ensures Effects(env, [Mov(R(EDX), Mm(Rib(RibAmx))), Mov(Mm(Amx(EDX, AHea)), R(EAX))], x)
         == Some(SetReg(x, EDX, env.amxPtr).(amx := x.amx.(hea := x.regs.eax)))
  {
    Seq2(env, Mov(R(EDX), Mm(Rib(RibAmx))), Mov(Mm(Amx(EDX, AHea)), R(EAX)), x);
  }

  lemma EffLea(env: Env, r: Reg, x: State)
    requires r == ESP || r == EBP
    ensures Effects(env, [Lea(r, Index(EBX, EAX, 0))], x) == Some(SetReg(x, r, Add(x.regs.ebx, x.regs.eax)))
  {
    Seq1(env, Lea(r, Index(EBX, EAX, 0)), x);
  }

  lemma SimSCtrl(env: Env, cfg: Amx.Cfg, k: Word, a: Amx.State, x: State, b: Amx.State)
    requires Consistent(env, cfg) && Core(env, cfg, a, x)
    requires Amx.ApplyStack(cfg, Amx.SCtrl(k), 0, a) == Some(b)
    ensures Simulates(env, cfg, SCtrlCode(k), x, b)
  {
    if k == 2 {
      assert SCtrlCode(k) == [Mov(R(EDX), Mm(Rib(RibAmx))), Mov(Mm(Amx(EDX, AHea)), R(EAX))];
      EffSetHeap(env, x);
      CoreScratch(env, cfg, a, x, env.amxPtr, x.regs.esi, x.regs.edi, x.fl);
      CoreHeap(env, cfg, a, SetReg(x, EDX, env.amxPtr), a.pri, a.mem);
    } else if k == 4 {
      assert SCtrlCode(k) == [Lea(ESP, Index(EBX, EAX, 0))];
      EffLea(env, ESP, x);
      CoreStk(env, cfg, a, x, a.pri);
    } else if k == 5 {
      assert SCtrlCode(k) == [Lea(EBP, Index(EBX, EAX, 0))];
      EffLea(env, EBP, x);
      CoreFrm(env, cfg, a, x, a.pri);
    }
  }

  lemma CoreFrm(env: Env, cfg: Amx.Cfg, a: Amx.State, x: State, frm: Word)
    requires Core(env, cfg, a, x)
    ensures var y := SetReg(x, EBP, Add(env.base, frm)); Core(env, cfg, a.(frm := frm), y) && Frame(x, y)
  {
  }

  lemma SimPushes(env: Env, cfg: Amx.Cfg, op: Amx.StackOp, next: int, a: Amx.State, x: State, b: Amx.State)
    requires Consistent(env, cfg) && Core(env, cfg, a, x)
    requires op.PushAcc? || op.PushC? || op.PushM? || op.PushAdr?
    requires Amx.ApplyStack(cfg, op, next, a) == Some(b)
    ensures Simulates(env, cfg, StackCode(op, next), x, b)
  {
    match op
    case PushAcc(r) =>
      assert StackCode(op, next) == [Push(R(RegOf(r)))];
      SimPush(env, cfg, R(RegOf(r)), Amx.GetAcc(a, r), a, x, b);
    case PushC(v) =>
      assert StackCode(op, next) == [Push(I(v))];
      SimPush(env, cfg, I(v), v, a, x, b);
    case PushM(m, o) =>
      assert StackCode(op, next) == [Push(Mm(Place(m, o)))];
      SimPushM(env, cfg, m, o, a, x, b);
    case PushAdr(o) =>
      assert StackCode(op, next) == [Lea(EDX, At(EBP, o)), Alu(SubOp, R(EDX), R(EBX)), Push(R(EDX))];
      SimPushAdr(env, cfg, o, a, x, b);
  }

  lemma StackSimulated(env: Env, cfg: Amx.Cfg, op: Amx.StackOp, next: int, a: Amx.State, x: State, b: Amx.State)
    requires Consistent(env, cfg) && Core(env, cfg, a, x)
    requires Amx.ApplyStack(cfg, op, next, a) == Some(b)
    ensures Simulates(env, cfg, StackCode(op, next), x, b)
  {
    match op {
      case PopAcc(r) =>
        assert StackCode(op, next) == [Pop(R(RegOf(r)))];
        SimPop(env, cfg, r, a, x, b);
      case Stack(v) =>
        assert StackCode(op, next) == [Mov(R(ECX), R(ESP)), Alu(SubOp, R(ECX), R(EBX)), AddConst(R(ESP), v)];
        SimStackOp(env, cfg, v, a, x);
      case Heap(v) =>
        assert StackCode(op, next) == [Mov(R(EDX), Mm(Rib(RibAmx))), Mov(R(ECX), Mm(Amx(EDX, AHea))), AddConst(Mm(Amx(EDX, AHea)), v)];
        SimHeap(env, cfg, v, a, x);
      case Proc =>
        assert StackCode(op, next) == [Push(R(EBP)), Mov(R(EBP), R(ESP)), Alu(SubOp, Mm(At(ESP, 0)), R(EBX))];
        SimProc(env, cfg, a, x, b);
      case Swap(r) =>
        assert StackCode(op, next) == [Xchg(Mm(At(ESP, 0)), RegOf(r))];
        SimSwap(env, cfg, r, a, x, b);
      case LCtrl(k) => SimLCtrl(env, cfg, k, next, a, x, b.pri);
      case SCtrl(k) => SimSCtrl(env, cfg, k, a, x, b);
      case _ => SimPushes(env, cfg, op, next, a, x, b);
    }
  }
}
