/** A native function called from compiled code, and the way back. */
module Sysreq {
  import opened Word32
  import opened X86
  import Amx
  import opened Emit
  import opened Runtime
  import opened Relation
  import opened Insns
  import opened Layout
  import opened SimControl
  import opened SimCalls
  import opened SimIndirect
  import opened Simulation
  import opened SimStack
  import opened Compiler
  import opened ExecEnter
  import opened ExecSwitch
  import opened ExecRuns

  // ---- SysreqDHelper up to the call -------------------------------------------------------

  lemma PopData(env: Env, x: State, r: Reg, o: Word, v: Word)
    requires r == ESI || r == EAX
    requires x.regs.esp == Add(env.base, o) && Slot(x.data, o, v)
    ensures Effect(env, Pop(R(r)), x) == Some(SetReg(SetReg(x, ESP, Add(env.base, Add(o, 4))), r, v))
  {
    hide Store4;
    assert Sub(Add(env.base, o), env.base) == o;
    assert Add(Add(env.base, o), 4) == Add(env.base, Add(o, 4));
  }

  lemma EnterPops(env: Env, x: State, stk: Word, q: Word, p: Word)
    requires x.rib.amx == env.amxPtr && stk >= 8
    requires x.regs.esp == Add(env.base, stk - 8) && Slot(x.data, stk - 8, q) && Slot(x.data, stk - 4, p)
    ensures Effects(env, [Mov(R(EDX), Mm(Rib(RibAmx))), Pop(R(ESI)), Pop(R(EAX))], x)
         == Some(x.(regs := x.regs.(edx := env.amxPtr, esi := q, eax := p, esp := Add(env.base, stk))))
  {
    hide Effect, Effects, Slot;
    var x1 := SetReg(x, EDX, env.amxPtr);
    MovesRib(env, x, EDX, RibAmx);
    var x2 := SetReg(SetReg(x1, ESP, Add(env.base, stk - 4)), ESI, q);
    PopData(env, x1, ESI, stk - 8, q);
    PopData(env, x2, EAX, stk - 4, p);
    Three(env, Mov(R(EDX), Mm(Rib(RibAmx))), Pop(R(ESI)), Pop(R(EAX)), x, x1, x2, SetReg(SetReg(x2, ESP, Add(env.base, stk)), EAX, p));
  }

  lemma LeaTop(env: Env, x: State)
    ensures Effect(env, Lea(EDI, At(ESP, 0)), x) == Some(SetReg(x, EDI, x.regs.esp))
  {
  }

  lemma EnterFrame(env: Env, x: State)
    ensures Effects(env, [Lea(EDI, At(ESP, 0)), Mov(Mm(Rib(RibAmxEbp)), R(EBP)), Alu(SubOp, R(EBP), R(EBX))], x)
         == Some(Undef(x).(regs := x.regs.(edi := x.regs.esp, ebp := Sub(x.regs.ebp, x.regs.ebx)), rib := x.rib.(amxEbp := x.regs.ebp)))
  {
    hide Effect, Effects, Sub;
    var x1 := SetReg(x, EDI, x.regs.esp);
    LeaTop(env, x);
    var x2 := x1.(rib := x.rib.(amxEbp := x.regs.ebp));
    StoresRib(env, x1, RibAmxEbp, EBP);
    Computes(env, x2, SubOp, EBP, R(EBX), x.regs.ebx);
    Three(env, Lea(EDI, At(ESP, 0)), Mov(Mm(Rib(RibAmxEbp)), R(EBP)), Alu(SubOp, R(EBP), R(EBX)), x, x1, x2,
          SetReg(Undef(x2), EBP, Sub(x.regs.ebp, x.regs.ebx)));
  }

  lemma EnterFrm(env: Env, x: State)
    requires x.regs.edx == env.amxPtr
    ensures Effects(env, [Mov(Mm(Amx(EDX, AFrm)), R(EBP)), Mov(R(EBP), Mm(Rib(RibEbp))), Mov(Mm(Rib(RibAmxEsp)), R(ESP))], x)
         == Some(x.(regs := x.regs.(ebp := x.rib.ebp), rib := x.rib.(amxEsp := x.regs.esp), amx := x.amx.(frm := x.regs.ebp)))
  {
    hide Effect, Effects;
    var x1 := x.(amx := x.amx.(frm := x.regs.ebp));
    StoresAmx(env, x, EDX, AFrm, R(EBP), x.regs.ebp);
    var x2 := SetReg(x1, EBP, x.rib.ebp);
    MovesRib(env, x1, EBP, RibEbp);
    StoresRib(env, x2, RibAmxEsp, ESP);
    Three(env, Mov(Mm(Amx(EDX, AFrm)), R(EBP)), Mov(R(EBP), Mm(Rib(RibEbp))), Mov(Mm(Rib(RibAmxEsp)), R(ESP)), x, x1, x2,
          x2.(rib := x2.rib.(amxEsp := x.regs.esp)));
  }

  lemma EnterStk(env: Env, x: State)
    requires x.regs.edx == env.amxPtr
    ensures Effects(env, [Alu(SubOp, R(ESP), R(EBX)), Mov(Mm(Amx(EDX, AStk)), R(ESP)), Mov(R(ESP), Mm(Rib(RibEsp)))], x)
         == Some(Undef(x).(regs := x.regs.(esp := x.rib.esp), amx := x.amx.(stk := Sub(x.regs.esp, x.regs.ebx))))
  {
    hide Effect, Effects, Sub;
    var x1 := SetReg(Undef(x), ESP, Sub(x.regs.esp, x.regs.ebx));
    Computes(env, x, SubOp, ESP, R(EBX), x.regs.ebx);
    var x2 := x1.(amx := x.amx.(stk := x1.regs.esp));
    StoresAmx(env, x1, EDX, AStk, R(ESP), x1.regs.esp);
    MovesRib(env, x2, ESP, RibEsp);
    Three(env, Alu(SubOp, R(ESP), R(EBX)), Mov(Mm(Amx(EDX, AStk)), R(ESP)), Mov(R(ESP), Mm(Rib(RibEsp))), x, x1, x2, SetReg(x2, ESP, x.rib.esp));
  }

  lemma EnterSaves(env: Env, x: State, e: int)
    requires Apart(env, x) && Words(x, e, 104, 12) && x.regs.esp == e - 64
    ensures Effects(env, [Push(Mm(Rib(RibAmxEsp))), Push(Mm(Rib(RibAmxEbp)))], x)
         == Some(x.(regs := x.regs.(esp := e - 72), native := x.native[e - 68 := x.rib.amxEsp][e - 72 := x.rib.amxEbp]))
  {
    hide Effect, Effects, Apart;
    var x1 := x.(regs := x.regs.(esp := e - 68), native := x.native[e - 68 := x.rib.amxEsp]);
    PushRib(env, x, RibAmxEsp);
    ApartSame(env, x, x1);
    PushRib(env, x1, RibAmxEbp);
    Two(env, Push(Mm(Rib(RibAmxEsp))), Push(Mm(Rib(RibAmxEbp))), x, x1,
        x1.(regs := x1.regs.(esp := e - 72), native := x1.native[e - 72 := x.rib.amxEbp]));
  }

  lemma EnterArgs(env: Env, x: State, e: int)
    requires Apart(env, x) && Words(x, e, 104, 12) && x.regs.esp == e - 72
    ensures Effects(env, [Push(R(ECX)), Push(R(EDI)), Push(R(EDX))], x)
         == Some(x.(regs := x.regs.(esp := e - 84), native := x.native[e - 76 := x.regs.ecx][e - 80 := x.regs.edi][e - 84 := x.regs.edx]))
  {
    hide Effect, Effects, Apart;
    var x1 := x.(regs := x.regs.(esp := e - 76), native := x.native[e - 76 := x.regs.ecx]);
    Pushes(env, x, R(ECX), x.regs.ecx);
    ApartSame(env, x, x1);
    var x2 := x1.(regs := x1.regs.(esp := e - 80), native := x1.native[e - 80 := x.regs.edi]);
    Pushes(env, x1, R(EDI), x.regs.edi);
    ApartSame(env, x, x2);
    Pushes(env, x2, R(EDX), x.regs.edx);
    Three(env, Push(R(ECX)), Push(R(EDI)), Push(R(EDX)), x, x1, x2,
          x2.(regs := x2.regs.(esp := e - 84), native := x2.native[e - 84 := x.regs.edx]));
  }

  const ENTER_CODE: seq<Insn> :=
    [Mov(R(EDX), Mm(Rib(RibAmx))), Pop(R(ESI)), Pop(R(EAX))]
    + ([Lea(EDI, At(ESP, 0)), Mov(Mm(Rib(RibAmxEbp)), R(EBP)), Alu(SubOp, R(EBP), R(EBX))]
    + ([Mov(Mm(Amx(EDX, AFrm)), R(EBP)), Mov(R(EBP), Mm(Rib(RibEbp))), Mov(Mm(Rib(RibAmxEsp)), R(ESP))]
    + ([Alu(SubOp, R(ESP), R(EBX)), Mov(Mm(Amx(EDX, AStk)), R(ESP)), Mov(R(ESP), Mm(Rib(RibEsp)))]
    + ([Push(Mm(Rib(RibAmxEsp))), Push(Mm(Rib(RibAmxEbp)))]
    + [Push(R(ECX)), Push(R(EDI)), Push(R(EDX))]))))

  /** In front of the call of the native function: the AMX registers saved, FRM and STK in the
      AMX structure, the arguments on the native stack. */
  function Calling(env: Env, x: State, e: int, stk: Word, q: Word, p: Word): State
    requires 104 <= e < M
  {
    var sp := Add(env.base, stk);
    x.(regs := x.regs.(eax := p, edx := env.amxPtr, esi := q, edi := sp, ebp := x.rib.ebp, esp := e - 84), fl := NoFlags,
       rib := x.rib.(amxEbp := x.regs.ebp, amxEsp := sp),
       amx := x.amx.(frm := Sub(x.regs.ebp, x.regs.ebx), stk := Sub(sp, x.regs.ebx)),
       native := x.native[e - 68 := sp][e - 72 := x.regs.ebp][e - 76 := x.regs.ecx][e - 80 := sp][e - 84 := env.amxPtr])
  }

  lemma EnterEffects(env: Env, x: State, e: int, stk: Word, q: Word, p: Word)
    requires Apart(env, x) && Words(x, e, 104, 12) && 104 <= e && x.rib.amx == env.amxPtr && x.rib.esp == e - 64 && stk >= 8
    requires x.regs.esp == Add(env.base, stk - 8) && Slot(x.data, stk - 8, q) && Slot(x.data, stk - 4, p)
    ensures Effects(env, ENTER_CODE, x) == Some(Calling(env, x, e, stk, q, p))
  {
    hide Effects, Apart, Slot, Add, Sub;
    var a, b := [Mov(R(EDX), Mm(Rib(RibAmx))), Pop(R(ESI)), Pop(R(EAX))], [Lea(EDI, At(ESP, 0)), Mov(Mm(Rib(RibAmxEbp)), R(EBP)), Alu(SubOp, R(EBP), R(EBX))];
    var c := [Mov(Mm(Amx(EDX, AFrm)), R(EBP)), Mov(R(EBP), Mm(Rib(RibEbp))), Mov(Mm(Rib(RibAmxEsp)), R(ESP))];
    var d := [Alu(SubOp, R(ESP), R(EBX)), Mov(Mm(Amx(EDX, AStk)), R(ESP)), Mov(R(ESP), Mm(Rib(RibEsp)))];
    var f, g := [Push(Mm(Rib(RibAmxEsp))), Push(Mm(Rib(RibAmxEbp)))], [Push(R(ECX)), Push(R(EDI)), Push(R(EDX))];
    var sp := Add(env.base, stk);
    var x1 := x.(regs := x.regs.(edx := env.amxPtr, esi := q, eax := p, esp := sp));
    EnterPops(env, x, stk, q, p);
    var x2 := Undef(x1).(regs := x1.regs.(edi := sp, ebp := Sub(x.regs.ebp, x.regs.ebx)), rib := x.rib.(amxEbp := x.regs.ebp));
    EnterFrame(env, x1);
    var x3 := x2.(regs := x2.regs.(ebp := x.rib.ebp), rib := x2.rib.(amxEsp := sp), amx := x.amx.(frm := Sub(x.regs.ebp, x.regs.ebx)));
    EnterFrm(env, x2);
    var x4 := Undef(x3).(regs := x3.regs.(esp := e - 64), amx := x3.amx.(stk := Sub(sp, x.regs.ebx)));
    EnterStk(env, x3);
    ApartSame(env, x, x4);
    var x5 := x4.(regs := x4.regs.(esp := e - 72), native := x4.native[e - 68 := sp][e - 72 := x.regs.ebp]);
    EnterSaves(env, x4, e);
    ApartSame(env, x, x5);
    var y := Calling(env, x, e, stk, q, p);
    EnterArgs(env, x5, e);
    SeqJoin(env, f, g, x4, x5, y);
    SeqJoin(env, d, f + g, x3, x4, y);
    SeqJoin(env, c, d + (f + g), x2, x3, y);
    SeqJoin(env, b, c + (d + (f + g)), x1, x2, y);
    SeqJoin(env, a, b + (c + (d + (f + g))), x, x1, y);
  }

  // ---- from the instruction to the native function ------------------------------------------

  /** The words at stk - 4 and stk - 8 that the instruction pushes. */
  function WithCall(d: Data, stk: int, p: Word, q: Word): Data {
    Store4(Store4(d, stk - 4, p), stk - 8, q)
  }

  lemma CallSlots(d: Data, stk: int, p: Word, q: Word)
    requires Has4(d, stk - 4) && Has4(d, stk - 8)
    ensures var f := WithCall(d, stk, p, q);
            Slot(f, stk - 4, p) && Slot(f, stk - 8, q) && f.Keys == d.Keys && Outside(d, f, stk - 8, stk)
  {
    SlotStored(d, stk - 4, p);
    SlotKept(Store4(d, stk - 4, p), stk - 4, p, stk - 8, q);
    SlotStored(Store4(d, stk - 4, p), stk - 8, q);
  }

  lemma PushConst(env: Env, x: State, stk: Word, p: Word)
    requires x.regs.esp == Add(env.base, stk) && stk >= 4 && Has4(x.data, stk - 4)
    ensures Effect(env, Push(I(p)), x) == Some(x.(regs := x.regs.(esp := Add(env.base, stk - 4)), data := Store4(x.data, stk - 4, p)))
  {
    hide Store4, Has4;
    assert Sub(x.regs.esp, 4) == Add(env.base, stk - 4) && Sub(Add(env.base, stk - 4), env.base) == stk - 4;
  }

  lemma CallOnData(env: Env, x: State, at: int, t: Target, k: int, o: Word)
    requires 0 <= at < |env.code| && env.code[at] == Call(t) && Resolve(env, at, t) == Some(k) && |env.addrs| == |env.code| + 1
    requires o >= 4 && x.regs.esp == Add(env.base, o) && Has4(x.data, o - 4)
    ensures Reaches(env, Conf(x, at), Conf(x.(regs := x.regs.(esp := Add(env.base, o - 4)), data := Store4(x.data, o - 4, env.addrs[at + 1])), k))
  {
    hide Store4, Has4;
    var y := x.(regs := x.regs.(esp := Add(env.base, o - 4)), data := Store4(x.data, o - 4, env.addrs[at + 1]));
    assert Sub(x.regs.esp, 4) == Add(env.base, o - 4) && Sub(Add(env.base, o - 4), env.base) == o - 4;
    assert PushWord(env, x, env.addrs[at + 1]) == Some(y);
    assert Step(env, Conf(x, at)) == DoCall(env, Conf(x, at), k);
    ReachesStep(env, Conf(x, at), Conf(y, k));
  }

  lemma RequestPlaced(env: Env, at: int, p: Word)
    requires CodeAt(env, at, [Push(I(p)), Call(ToHelper(SysreqDHelper))])
    ensures 0 <= at && at + 2 <= |env.code| && env.code[at] == Push(I(p)) && env.code[at + 1] == Call(ToHelper(SysreqDHelper))
  {
    CodeItem(env, at, [Push(I(p)), Call(ToHelper(SysreqDHelper))], 0);
    CodeItem(env, at, [Push(I(p)), Call(ToHelper(SysreqDHelper))], 1);
  }

  /** push p; call SysreqDHelper. */
  lemma RequestRuns(env: Env, x: State, at: int, stk: Word, p: Word) returns (y: State)
    requires 0 <= at && at + 2 <= |env.code| && env.code[at] == Push(I(p)) && env.code[at + 1] == Call(ToHelper(SysreqDHelper))
    requires SysreqDHelper in env.helpers && env.helpers[SysreqDHelper] == 166 && |env.addrs| == |env.code| + 1
    requires x.regs.esp == Add(env.base, stk) && stk >= 8 && Has4(x.data, stk - 4) && Has4(x.data, stk - 8)
    ensures Reaches(env, Conf(x, at), Conf(y, 166)) && at + 2 < |env.addrs|
    ensures y == x.(regs := x.regs.(esp := Add(env.base, stk - 8)), data := WithCall(x.data, stk, p, env.addrs[at + 2]))
  {
    hide Effect, Effects, Reaches, Step, Run, Store4, Has4, Add;
    var x1 := x.(regs := x.regs.(esp := Add(env.base, stk - 4)), data := Store4(x.data, stk - 4, p));
    PushConst(env, x, stk, p);
    PlainStep(env, Push(I(p)), x, at, x1);
    StoreHas(x.data, stk - 4, p, stk - 8);
    CallOnData(env, x1, at + 1, ToHelper(SysreqDHelper), 166, stk - 4);
    y := x1.(regs := x1.regs.(esp := Add(env.base, stk - 8)), data := WithCall(x.data, stk, p, env.addrs[at + 2]));
    ReachesTrans(env, Conf(x, at), Conf(x1, at + 1), Conf(y, 166));
  }

  lemma SysreqPlaced(env: Env)
    requires CodeAt(env, 166, SYSREQ_D_HELPER)
    ensures CodeAt(env, 166, ENTER_CODE) && 183 < |env.code| && env.code[183] == CallReg(EAX) && CodeAt(env, 184, SYSREQ_LEAVE)
    ensures |ENTER_CODE| == 17
  {
    hide CodeAt;
    assert SYSREQ_ENTER == ENTER_CODE + [CallReg(EAX)] && |ENTER_CODE| == 17;
    CodeParts(env, 166, ENTER_CODE + [CallReg(EAX)], SYSREQ_LEAVE);
    CodeParts(env, 166, ENTER_CODE, [CallReg(EAX)]);
    CodeItem(env, 183, [CallReg(EAX)], 0);
  }

  /** What the native function is called with: the AMX structure and its parameters as arguments,
      FRM and STK of x in the AMX structure. */
  ghost predicate Handed(env: Env, x: State, z: State, e: int, stk: Word, p: Word) {
    && z.regs.eax == p && z.regs.esp == e - 84 && Stored(z.native, e - 84, env.amxPtr) && Stored(z.native, e - 80, Add(env.base, stk))
    && z.amx == x.amx.(frm := Sub(x.regs.ebp, x.regs.ebx), stk := Sub(Add(env.base, stk), x.regs.ebx))
  }

  lemma HandedThere(env: Env, x: State, y: State, e: int, stk: Word, q: Word, p: Word)
    requires 104 <= e < M && y.amx == x.amx && y.regs.ebp == x.regs.ebp && y.regs.ebx == x.regs.ebx
    ensures Handed(env, x, Calling(env, y, e, stk, q, p), e, stk, p)
  {
    hide Sub, Add;
  }

  /** From a native call instruction to the call instruction of SysreqDHelper. */
  lemma NativeReached(env: Env, s: State, x: State, at: int, stk: Word, p: Word) returns (y: State)
    requires CodeAt(env, at, [Push(I(p)), Call(ToHelper(SysreqDHelper))]) && RuntimeAt(env) && Addressed(env)
    requires Running(env, s, x)
    requires x.regs.esp == Add(env.base, stk) && stk >= 8 && Has4(x.data, stk - 4) && Has4(x.data, stk - 8)
    ensures 0 <= at && at + 2 < |env.addrs|
    ensures y == x.(regs := x.regs.(esp := Add(env.base, stk - 8)), data := WithCall(x.data, stk, p, env.addrs[at + 2]))
    ensures Reaches(env, Conf(x, at), Conf(Calling(env, y, s.regs.esp, stk, env.addrs[at + 2], p), 183))
    ensures Handed(env, x, Calling(env, y, s.regs.esp, stk, env.addrs[at + 2], p), s.regs.esp, stk, p)
  {
    hide Effect, Effects, Reaches, Step, Run, RuntimeAt, Addressed, Framed, Apart, CodeAt, WithCall, Has4, Slot, Handed, Calling;
    RuntimeParts(env);
    SysreqPlaced(env);
    RequestPlaced(env, at, p);
    y := RequestRuns(env, x, at, stk, p);
    CallSlots(x.data, stk, p, env.addrs[at + 2]);
    ApartKeys(env, x, y);
    var z := Calling(env, y, s.regs.esp, stk, env.addrs[at + 2], p);
    HandedThere(env, x, y, s.regs.esp, stk, env.addrs[at + 2], p);
    EnterEffects(env, y, s.regs.esp, stk, env.addrs[at + 2], p);
    Straight(env, ENTER_CODE, y, 166, z);
    ReachesTrans(env, Conf(x, at), Conf(y, 166), Conf(z, 183));
  }

  // ---- back from the native function ----------------------------------------------------------

  lemma LeaveAlt(env: Env, x: State, e: int)
    requires Apart(env, x) && Words(x, e, 104, 12) && 104 <= e && x.regs.esp == e - 84
    ensures Effects(env, [Alu(AddOp, R(ESP), I(8)), Pop(R(ECX)), Pop(R(EDX))], x)
         == Some(Undef(x).(regs := x.regs.(ecx := x.native[e - 76], edx := x.native[e - 72], esp := e - 68)))
  {
    hide Effect, Effects, Apart;
    var x1 := SetReg(Undef(x), ESP, e - 76);
    Computes(env, x, AddOp, ESP, I(8), 8);
    ApartSame(env, x, x1);
    var x2 := SetReg(SetReg(x1, ESP, e - 72), ECX, x.native[e - 76]);
    PopsReg(env, x1, ECX);
    ApartSame(env, x, x2);
    PopsReg(env, x2, EDX);
    Three(env, Alu(AddOp, R(ESP), I(8)), Pop(R(ECX)), Pop(R(EDX)), x, x1, x2, SetReg(SetReg(x2, ESP, e - 68), EDX, x.native[e - 72]));
  }

  lemma LeaveStack(env: Env, x: State, e: int)
    requires Apart(env, x) && Words(x, e, 104, 12) && 104 <= e && x.regs.esp == e - 68
    ensures Effects(env, [Mov(R(EBP), R(EDX)), Pop(R(EDX)), Mov(R(ESP), R(EDX))], x)
         == Some(x.(regs := x.regs.(ebp := x.regs.edx, edx := x.native[e - 68], esp := x.native[e - 68])))
  {
    hide Effect, Effects, Apart;
    var x1 := SetReg(x, EBP, x.regs.edx);
    MovesReg(env, x, EBP, EDX);
    ApartSame(env, x, x1);
    var x2 := SetReg(SetReg(x1, ESP, e - 64), EDX, x.native[e - 68]);
    PopsReg(env, x1, EDX);
    MovesReg(env, x2, ESP, EDX);
    Three(env, Mov(R(EBP), R(EDX)), Pop(R(EDX)), Mov(R(ESP), R(EDX)), x, x1, x2, SetReg(x2, ESP, x2.regs.edx));
  }

  lemma LeaveError(env: Env, x: State)
    requires x.rib.amx == env.amxPtr
    ensures Effects(env, [Mov(R(EDX), Mm(Rib(RibAmx))), Mov(R(EDI), Mm(Amx(EDX, AError)))], x)
         == Some(x.(regs := x.regs.(edx := env.amxPtr, edi := x.amx.error)))
  {
    hide Effect, Effects;
    var x1 := SetReg(x, EDX, env.amxPtr);
    MovesRib(env, x, EDX, RibAmx);
    MovesAmx(env, x1, EDI, EDX, AError);
    Two(env, Mov(R(EDX), Mm(Rib(RibAmx))), Mov(R(EDI), Mm(Amx(EDX, AError))), x, x1, SetReg(x1, EDI, x.amx.error));
  }

  const LEAVE_CODE: seq<Insn> :=
    [Alu(AddOp, R(ESP), I(8)), Pop(R(ECX)), Pop(R(EDX))]
    + ([Mov(R(EBP), R(EDX)), Pop(R(EDX)), Mov(R(ESP), R(EDX))] + [Mov(R(EDX), Mm(Rib(RibAmx))), Mov(R(EDI), Mm(Amx(EDX, AError)))])

  /** On the AMX stack again, with the error code of the native function in edi. */
  function BackOnAmx(env: Env, x: State, e: int): State
    requires 104 <= e < M && e - 68 in x.native && e - 72 in x.native && e - 76 in x.native
  {
    x.(regs := x.regs.(ecx := x.native[e - 76], ebp := x.native[e - 72], esp := x.native[e - 68], edx := env.amxPtr, edi := x.amx.error), fl := NoFlags)
  }

  lemma LeaveEffects(env: Env, x: State, e: int)
    requires Apart(env, x) && Words(x, e, 104, 12) && 104 <= e && x.regs.esp == e - 84 && x.rib.amx == env.amxPtr
    ensures Effects(env, LEAVE_CODE, x) == Some(BackOnAmx(env, x, e))
  {
    hide Effects, Apart;
    var a, b := [Alu(AddOp, R(ESP), I(8)), Pop(R(ECX)), Pop(R(EDX))], [Mov(R(EBP), R(EDX)), Pop(R(EDX)), Mov(R(ESP), R(EDX))];
    var c := [Mov(R(EDX), Mm(Rib(RibAmx))), Mov(R(EDI), Mm(Amx(EDX, AError)))];
    var x1 := Undef(x).(regs := x.regs.(ecx := x.native[e - 76], edx := x.native[e - 72], esp := e - 68));
    LeaveAlt(env, x, e);
    ApartSame(env, x, x1);
    var x2 := x1.(regs := x1.regs.(ebp := x.native[e - 72], edx := x.native[e - 68], esp := x.native[e - 68]));
    LeaveStack(env, x1, e);
    LeaveError(env, x2);
    SeqJoin(env, b, c, x1, x2, BackOnAmx(env, x, e));
    SeqJoin(env, a, b + c, x, x1, BackOnAmx(env, x, e));
  }

  lemma LeavePlaced(env: Env)
    requires CodeAt(env, 184, SYSREQ_LEAVE)
    ensures CodeAt(env, 184, LEAVE_CODE) && |LEAVE_CODE| == 8 && CodeAt(env, 192, [Cmp(EDI, I(AMX_ERR_NONE)), Jcc(NE, Skip(2))])
    ensures 196 < |env.code| && env.code[194] == Push(R(ESI)) && env.code[195] == Ret && env.code[196] == Call(ToHelper(HaltHelper))
  {
    hide CodeAt;
    var c, d := [Cmp(EDI, I(AMX_ERR_NONE)), Jcc(NE, Skip(2))], [Push(R(ESI)), Ret, Call(ToHelper(HaltHelper))];
    assert SYSREQ_LEAVE == LEAVE_CODE + (c + d) && |LEAVE_CODE| == 8;
    CodeParts(env, 184, LEAVE_CODE, c + d);
    CodeParts(env, 192, c, d);
    CodeItem(env, 194, d, 0);
    CodeItem(env, 194, d, 1);
    CodeItem(env, 194, d, 2);
  }

  lemma CmpError(env: Env, x: State)
    ensures Effect(env, Cmp(EDI, I(AMX_ERR_NONE)), x) == Some(x.(fl := CmpFlags(x.regs.edi, 0, M)))
  {
  }

  /** From the return of the native function to the test of its error code: on to the push of
      the return address, or to the call of HaltHelper. */
  lemma LeaveRuns(env: Env, x: State, e: int) returns (y: State)
    requires RuntimeAt(env) && Addressed(env)
    requires Apart(env, x) && Words(x, e, 104, 12) && 104 <= e && x.regs.esp == e - 84 && x.rib.amx == env.amxPtr
    ensures Reaches(env, Conf(x, 184), Conf(y, if x.amx.error != AMX_ERR_NONE then 196 else 194))
    ensures y == BackOnAmx(env, x, e).(fl := y.fl)
  {
    hide Effect, Effects, Reaches, Step, Run, RuntimeAt, Addressed, Apart, CodeAt;
    RuntimeParts(env);
    SysreqPlaced(env);
    LeavePlaced(env);
    var x1 := BackOnAmx(env, x, e);
    LeaveEffects(env, x, e);
    Straight(env, LEAVE_CODE, x, 184, x1);
    y := x1.(fl := CmpFlags(x1.regs.edi, 0, M));
    CmpError(env, x1);
    TestAndJump(env, x1, 192, Cmp(EDI, I(AMX_ERR_NONE)), NE, Skip(2), y.fl, 196);
    ReachesTrans(env, Conf(x, 184), Conf(x1, 192), Conf(y, if x.amx.error != AMX_ERR_NONE then 196 else 194));
  }

  /** push esi; ret: to the address in esi, with the bytes below STK overwritten. */
  lemma ResumeRuns(env: Env, x: State, stk: Word, k: int)
    requires Addressed(env) && 0 <= k < |env.addrs| && x.regs.esi == env.addrs[k]
    requires 195 < |env.code| && env.code[194] == Push(R(ESI)) && env.code[195] == Ret
    requires x.regs.esp == Add(env.base, stk) && stk >= 4 && Has4(x.data, stk - 4)
    ensures Reaches(env, Conf(x, 194), Conf(x.(data := Store4(x.data, stk - 4, env.addrs[k])), k))
  {
    hide Effect, Effects, Reaches, Step, Run, Store4, Has4, Load4;
    var x1 := x.(regs := x.regs.(esp := Add(env.base, stk - 4)), data := Store4(x.data, stk - 4, env.addrs[k]));
    PushEsi(env, x, stk);
    PlainStep(env, Push(R(ESI)), x, 194, x1);
    assert Slot(x1.data, stk - 4, env.addrs[k]) by { SlotStored(x.data, stk - 4, env.addrs[k]); }
    IndexOfIs(env.addrs, k);
    assert LoadAt(env, x1, x1.regs.esp) == Some(env.addrs[k]) by { assert Sub(Add(env.base, stk - 4), env.base) == stk - 4; }
    RetStep(env, x1, 195, env.addrs[k], k);
    assert Add(Add(env.base, stk - 4), 4) == Add(env.base, stk);
    assert SetReg(x1, ESP, Add(x1.regs.esp, 4)) == x.(data := Store4(x.data, stk - 4, env.addrs[k]));
    ReachesTrans(env, Conf(x, 194), Conf(x1, 195), Conf(x.(data := Store4(x.data, stk - 4, env.addrs[k])), k));
  }

  lemma PushEsi(env: Env, x: State, stk: Word)
    requires x.regs.esp == Add(env.base, stk) && stk >= 4 && Has4(x.data, stk - 4)
    ensures Effect(env, Push(R(ESI)), x) == Some(x.(regs := x.regs.(esp := Add(env.base, stk - 4)), data := Store4(x.data, stk - 4, x.regs.esi)))
  {
    hide Store4, Has4;
    assert Sub(x.regs.esp, 4) == Add(env.base, stk - 4) && Sub(Add(env.base, stk - 4), env.base) == stk - 4;
  }
}
