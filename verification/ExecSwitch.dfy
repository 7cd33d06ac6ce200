/** Saving the state of an outer run, and the switch to the AMX stack. */
module ExecSwitch {
  import opened Word32
  import opened X86
  import Amx
  import opened Emit
  import opened Runtime
  import opened Relation
  import opened Insns
  import opened Layout
  import opened SimControl
  import opened SimCalls
  import opened SimIndirect
  import opened ExecEnter

  // ---- the end of Exec's set-up -------------------------------------------------------------

  lemma SaveOne(env: Env, x: State, f: RibField, k: int, a: Word)
    requires Apart(env, x) && a in x.native && Add(x.regs.ebp, Wrap(k)) == a
    ensures Effects(env, [Mov(R(EAX), Mm(Rib(f))), Mov(Local(k), R(EAX))], x)
         == Some(x.(regs := x.regs.(eax := GetRib(x.rib, f)), native := x.native[a := GetRib(x.rib, f)]))
  {
    hide Effect, Effects, Apart, GetRib, Wrap, Add;
    var x1 := SetReg(x, EAX, GetRib(x.rib, f));
    MovesRib(env, x, EAX, f);
    ApartSame(env, x, x1);
    WritesNative(env, x1, EBP, Wrap(k), a, EAX);
    Two(env, Mov(R(EAX), Mm(Rib(f))), Mov(Local(k), R(EAX)), x, x1, x1.(native := x1.native[a := GetRib(x.rib, f)]));
  }

  const SAVE_CODE: seq<Insn> :=
    ([Mov(R(EAX), Mm(Rib(RibResetEbp))), Mov(Local(-8), R(EAX))] + [Mov(R(EAX), Mm(Rib(RibResetEsp))), Mov(Local(-12), R(EAX))])
    + ([Mov(R(EAX), Mm(Rib(RibResetStk))), Mov(Local(-16), R(EAX))] + [Mov(R(EAX), Mm(Rib(RibResetHea))), Mov(Local(-20), R(EAX))])

  function SavedLocals(x: State, e: int): map<Word, Word>
    requires 104 <= e < M
  {
    x.native[e - 12 := x.rib.resetEbp][e - 16 := x.rib.resetEsp][e - 20 := x.rib.resetStk][e - 24 := x.rib.resetHea]
  }

  lemma SaveLocals(env: Env, x: State, e: int)
    requires Apart(env, x) && Words(x, e, 104, 12) && x.regs.ebp == e - 4
    ensures Effects(env, SAVE_CODE, x) == Some(x.(regs := x.regs.(eax := x.rib.resetHea), native := SavedLocals(x, e)))
  {
    hide Effects, Apart;
    var x1 := x.(regs := x.regs.(eax := x.rib.resetEbp), native := x.native[e - 12 := x.rib.resetEbp]);
    SaveOne(env, x, RibResetEbp, -8, e - 12);
    ApartSame(env, x, x1);
    var x2 := x1.(regs := x1.regs.(eax := x.rib.resetEsp), native := x1.native[e - 16 := x.rib.resetEsp]);
    SaveOne(env, x1, RibResetEsp, -12, e - 16);
    ApartSame(env, x, x2);
    var x3 := x2.(regs := x2.regs.(eax := x.rib.resetStk), native := x2.native[e - 20 := x.rib.resetStk]);
    SaveOne(env, x2, RibResetStk, -16, e - 20);
    ApartSame(env, x, x3);
    var x4 := x3.(regs := x3.regs.(eax := x.rib.resetHea), native := x3.native[e - 24 := x.rib.resetHea]);
    SaveOne(env, x3, RibResetHea, -20, e - 24);
    var a, b := [Mov(R(EAX), Mm(Rib(RibResetEbp))), Mov(Local(-8), R(EAX))], [Mov(R(EAX), Mm(Rib(RibResetEsp))), Mov(Local(-12), R(EAX))];
    var c, d := [Mov(R(EAX), Mm(Rib(RibResetStk))), Mov(Local(-16), R(EAX))], [Mov(R(EAX), Mm(Rib(RibResetHea))), Mov(Local(-20), R(EAX))];
    SeqJoin(env, a, b, x, x1, x2);
    SeqJoin(env, c, d, x2, x3, x4);
    SeqJoin(env, a + b, c + d, x, x2, x4);
  }

  /** A call that pushes its return address on the native stack. */
  lemma NativeCallStep(env: Env, x: State, at: int, t: Target, k: int)
    requires Apart(env, x) && x.regs.esp >= 4 && x.regs.esp - 4 in x.native
    requires 0 <= at < |env.code| && env.code[at] == Call(t) && Resolve(env, at, t) == Some(k) && |env.addrs| == |env.code| + 1
    ensures Reaches(env, Conf(x, at),
              Conf(x.(regs := x.regs.(esp := x.regs.esp - 4), native := x.native[x.regs.esp - 4 := env.addrs[at + 1]]), k))
  {
    hide Load4, Store4;
    var y := x.(regs := x.regs.(esp := x.regs.esp - 4), native := x.native[x.regs.esp - 4 := env.addrs[at + 1]]);
    assert PushWord(env, x, env.addrs[at + 1]) == Some(y);
    assert Step(env, Conf(x, at)) == DoCall(env, Conf(x, at), k);
    ReachesStep(env, Conf(x, at), Conf(y, k));
  }

  /** push of the function's address and the call of ExecHelper. */
  lemma CallHelper(env: Env, x: State, e: int, at: int) returns (y: State)
    requires CodeAt(env, at, [Push(Local(-4)), Call(ToHelper(ExecHelper))]) && ExecHelper in env.helpers && |env.addrs| == |env.code| + 1
    requires Apart(env, x) && Words(x, e, 104, 12) && x.regs.ebp == e - 4 && x.regs.esp == e - 32
    ensures Reaches(env, Conf(x, at), Conf(y, env.helpers[ExecHelper])) && 0 <= at && at + 2 < |env.addrs|
    ensures y == x.(regs := x.regs.(esp := e - 40), native := x.native[e - 36 := x.native[e - 8]][e - 40 := env.addrs[at + 2]])
  {
    hide Effect, Effects, Reaches, Step, Run, Apart;
    var x1 := x.(regs := x.regs.(esp := e - 36), native := x.native[e - 36 := x.native[e - 8]]);
    ReadsNative(env, x, EBP, M - 4, e - 8);
    Pushes(env, x, Local(-4), x.native[e - 8]);
    CodeItem(env, at, [Push(Local(-4)), Call(ToHelper(ExecHelper))], 0);
    CodeItem(env, at, [Push(Local(-4)), Call(ToHelper(ExecHelper))], 1);
    PlainStep(env, Push(Local(-4)), x, at, x1);
    ApartSame(env, x, x1);
    NativeCallStep(env, x1, at + 1, ToHelper(ExecHelper), env.helpers[ExecHelper]);
    y := x1.(regs := x1.regs.(esp := e - 40), native := x1.native[e - 40 := env.addrs[at + 2]]);
    ReachesTrans(env, Conf(x, at), Conf(x1, at + 1), Conf(y, env.helpers[ExecHelper]));
  }

  // ---- ExecHelper: what it saves -----------------------------------------------------------

  lemma PushRib(env: Env, x: State, f: RibField)
    requires Apart(env, x) && x.regs.esp >= 4 && x.regs.esp - 4 in x.native
    ensures Effect(env, Push(Mm(Rib(f))), x)
         == Some(x.(regs := x.regs.(esp := x.regs.esp - 4), native := x.native[x.regs.esp - 4 := GetRib(x.rib, f)]))
  {
    hide Effect, GetRib;
    Pushes(env, x, Mm(Rib(f)), GetRib(x.rib, f));
  }

  lemma HelperSavesRegs(env: Env, x: State, e: int)
    requires Apart(env, x) && Words(x, e, 104, 12) && x.regs.esp == e - 40
    ensures Effects(env, [Mov(R(EAX), Mm(At(ESP, 4))), Push(R(ESI)), Push(R(EDI))], x)
         == Some(x.(regs := x.regs.(eax := x.native[e - 36], esp := e - 48), native := x.native[e - 44 := x.regs.esi][e - 48 := x.regs.edi]))
  {
    hide Effect, Effects, Apart;
    var x1 := SetReg(x, EAX, x.native[e - 36]);
    ReadsNative(env, x, ESP, 4, e - 36);
    Moves(env, x, EAX, Mm(At(ESP, 4)), x.native[e - 36]);
    ApartSame(env, x, x1);
    var x2 := x1.(regs := x1.regs.(esp := e - 44), native := x1.native[e - 44 := x.regs.esi]);
    Pushes(env, x1, R(ESI), x.regs.esi);
    ApartSame(env, x, x2);
    var x3 := x2.(regs := x2.regs.(esp := e - 48), native := x2.native[e - 48 := x.regs.edi]);
    Pushes(env, x2, R(EDI), x.regs.edi);
    Three(env, Mov(R(EAX), Mm(At(ESP, 4))), Push(R(ESI)), Push(R(EDI)), x, x1, x2, x3);
  }

  lemma HelperSavesRib(env: Env, x: State, e: int)
    requires Apart(env, x) && Words(x, e, 104, 12) && x.regs.esp == e - 48
    ensures Effects(env, [Push(Mm(Rib(RibEbp))), Push(Mm(Rib(RibEsp))), Push(Mm(Rib(RibAmxEbp))), Push(Mm(Rib(RibAmxEsp)))], x)
         == Some(x.(regs := x.regs.(esp := e - 64),
                    native := x.native[e - 52 := x.rib.ebp][e - 56 := x.rib.esp][e - 60 := x.rib.amxEbp][e - 64 := x.rib.amxEsp]))
  {
    hide Effect, Effects, Apart;
    var x1 := x.(regs := x.regs.(esp := e - 52), native := x.native[e - 52 := x.rib.ebp]);
    PushRib(env, x, RibEbp);
    ApartSame(env, x, x1);
    var x2 := x1.(regs := x1.regs.(esp := e - 56), native := x1.native[e - 56 := x.rib.esp]);
    PushRib(env, x1, RibEsp);
    ApartSame(env, x, x2);
    var x3 := x2.(regs := x2.regs.(esp := e - 60), native := x2.native[e - 60 := x.rib.amxEbp]);
    PushRib(env, x2, RibAmxEbp);
    ApartSame(env, x, x3);
    var x4 := x3.(regs := x3.regs.(esp := e - 64), native := x3.native[e - 64 := x.rib.amxEsp]);
    PushRib(env, x3, RibAmxEsp);
    Four(env, Push(Mm(Rib(RibEbp))), Push(Mm(Rib(RibEsp))), Push(Mm(Rib(RibAmxEbp))), Push(Mm(Rib(RibAmxEsp))), x, x1, x2, x3, x4);
  }

  /** The native stack of an active ExecHelper, e being the stack pointer at the entry of
      Exec. */
  function HelperFrame(x: State, e: int): map<Word, Word>
    requires 104 <= e < M
  {
    x.native[e - 44 := x.regs.esi][e - 48 := x.regs.edi]
            [e - 52 := x.rib.ebp][e - 56 := x.rib.esp][e - 60 := x.rib.amxEbp][e - 64 := x.rib.amxEsp]
  }

  lemma HelperSaves(env: Env, x: State, e: int)
    requires Apart(env, x) && Words(x, e, 104, 12) && x.regs.esp == e - 40
    ensures Effects(env, HELPER_SAVE, x)
         == Some(x.(regs := x.regs.(eax := x.native[e - 36], esp := e - 64), native := HelperFrame(x, e)))
  {
    hide Effects, Apart;
    var c := [Mov(R(EAX), Mm(At(ESP, 4))), Push(R(ESI)), Push(R(EDI))];
    var d := [Push(Mm(Rib(RibEbp))), Push(Mm(Rib(RibEsp))), Push(Mm(Rib(RibAmxEbp))), Push(Mm(Rib(RibAmxEsp)))];
    assert HELPER_SAVE == c + d;
    var x1 := x.(regs := x.regs.(eax := x.native[e - 36], esp := e - 48), native := x.native[e - 44 := x.regs.esi][e - 48 := x.regs.edi]);
    HelperSavesRegs(env, x, e);
    ApartSame(env, x, x1);
    HelperSavesRib(env, x1, e);
    SeqJoin(env, c, d, x, x1, x1.(regs := x1.regs.(esp := e - 64), native := HelperFrame(x, e)));
  }

  // ---- ExecHelper: parameters and the switch -----------------------------------------------

  lemma ParamsHea(env: Env, x: State)
    requires x.rib.amx == env.amxPtr
    ensures Effects(env, [Mov(R(ECX), Mm(Rib(RibAmx))), Mov(R(EDX), Mm(Amx(ECX, AHea))), Mov(Mm(Rib(RibResetHea)), R(EDX))], x)
         == Some(x.(regs := x.regs.(ecx := env.amxPtr, edx := x.amx.hea), rib := x.rib.(resetHea := x.amx.hea)))
  {
    hide Effect, Effects;
    var x1 := SetReg(x, ECX, env.amxPtr);
    MovesRib(env, x, ECX, RibAmx);
    var x2 := SetReg(x1, EDX, x.amx.hea);
    MovesAmx(env, x1, EDX, ECX, AHea);
    StoresRib(env, x2, RibResetHea, EDX);
    Three(env, Mov(R(ECX), Mm(Rib(RibAmx))), Mov(R(EDX), Mm(Amx(ECX, AHea))), Mov(Mm(Rib(RibResetHea)), R(EDX)), x, x1, x2,
          x2.(rib := x.rib.(resetHea := x.amx.hea)));
  }

  /** The size of the parameters in bytes. */
  function ParamBytes(b: AmxBlock): Word { Wrap(Int(b.paramCount) * 4) }

  lemma Multiplies(env: Env, x: State)
    ensures Effect(env, IMul2(ESI, I(4)), x) == Some(SetReg(Undef(x), ESI, Wrap(Int(x.regs.esi) * 4)))
  {
  }

  lemma ParamsSize(env: Env, x: State)
    requires x.regs.ecx == env.amxPtr
    ensures Effects(env, [Mov(R(ESI), Mm(Amx(ECX, AParamCount))), IMul2(ESI, I(4)), Mov(R(EDX), Mm(Amx(ECX, AStk)))], x)
         == Some(Undef(x).(regs := x.regs.(esi := ParamBytes(x.amx), edx := x.amx.stk)))
  {
    hide Effect, Effects, Wrap, Int;
    var x1 := SetReg(x, ESI, x.amx.paramCount);
    MovesAmx(env, x, ESI, ECX, AParamCount);
    var x2 := SetReg(Undef(x1), ESI, ParamBytes(x.amx));
    Multiplies(env, x1);
    MovesAmx(env, x2, EDX, ECX, AStk);
    Three(env, Mov(R(ESI), Mm(Amx(ECX, AParamCount))), IMul2(ESI, I(4)), Mov(R(EDX), Mm(Amx(ECX, AStk))), x, x1, x2,
          SetReg(x2, EDX, x.amx.stk));
  }

  lemma LeaSum(env: Env, x: State)
    ensures Effect(env, Lea(EDI, Index(EDX, ESI, 0)), x) == Some(SetReg(x, EDI, Add(x.regs.edx, x.regs.esi)))
  {
  }

  lemma ParamsReset(env: Env, x: State)
    requires x.regs.edx >= 4
    ensures Effects(env, [Lea(EDI, Index(EDX, ESI, 0)), Mov(Mm(Rib(RibResetStk)), R(EDI)), Alu(SubOp, R(EDX), I(4))], x)
         == Some(Undef(x).(regs := x.regs.(edi := Add(x.regs.edx, x.regs.esi), edx := x.regs.edx - 4),
                           rib := x.rib.(resetStk := Add(x.regs.edx, x.regs.esi))))
  {
    hide Effect, Effects, Add;
    var v := Add(x.regs.edx, x.regs.esi);
    var x1 := SetReg(x, EDI, v);
    LeaSum(env, x);
    var x2 := x1.(rib := x.rib.(resetStk := v));
    StoresRib(env, x1, RibResetStk, EDI);
    Computes(env, x2, SubOp, EDX, I(4), 4);
    Three(env, Lea(EDI, Index(EDX, ESI, 0)), Mov(Mm(Rib(RibResetStk)), R(EDI)), Alu(SubOp, R(EDX), I(4)), x, x1, x2,
          SetReg(Undef(x2), EDX, x.regs.edx - 4));
  }

  lemma StoresData(env: Env, x: State, o: Word)
    requires x.regs.ebx == env.base && x.regs.edx == o && Has4(x.data, o)
    ensures Effect(env, Mov(Mm(Index(EBX, EDX, 0)), R(ESI)), x) == Some(x.(data := Store4(x.data, o, x.regs.esi)))
  {
    hide Store4;
    assert Sub(Add(env.base, o), env.base) == o;
  }

  lemma ParamsStore(env: Env, x: State, o: Word)
    requires x.regs.ebx == env.base && x.regs.edx == o && Has4(x.data, o) && x.regs.ecx == env.amxPtr
    ensures Effects(env, [Mov(Mm(Index(EBX, EDX, 0)), R(ESI)), Mov(Mm(Amx(ECX, AParamCount)), I(0))], x)
         == Some(x.(data := Store4(x.data, o, x.regs.esi), amx := x.amx.(paramCount := 0)))
  {
    hide Effect, Effects, Store4, Has4;
    var x1 := x.(data := Store4(x.data, o, x.regs.esi));
    StoresData(env, x, o);
    StoresAmx(env, x1, ECX, AParamCount, I(0), 0);
    Two(env, Mov(Mm(Index(EBX, EDX, 0)), R(ESI)), Mov(Mm(Amx(ECX, AParamCount)), I(0)), x, x1, x1.(amx := x.amx.(paramCount := 0)));
  }

  /** The size of the parameters is pushed, resets are recorded, the count is cleared. */
  function Parametrized(env: Env, x: State): State
    requires x.amx.stk >= 4
  {
    var v := Add(x.amx.stk, ParamBytes(x.amx));
    x.(regs := x.regs.(ecx := env.amxPtr, esi := ParamBytes(x.amx), edi := v, edx := x.amx.stk - 4), fl := NoFlags,
       rib := x.rib.(resetHea := x.amx.hea, resetStk := v),
       data := Store4(x.data, x.amx.stk - 4, ParamBytes(x.amx)), amx := x.amx.(paramCount := 0))
  }

  lemma Params(env: Env, x: State)
    requires x.rib.amx == env.amxPtr && x.regs.ebx == env.base && x.amx.stk >= 4 && Has4(x.data, x.amx.stk - 4)
    ensures Effects(env, HELPER_PARAMS, x) == Some(Parametrized(env, x))
  {
    hide Effects, Store4, Has4, Add, ParamBytes;
    var a := [Mov(R(ECX), Mm(Rib(RibAmx))), Mov(R(EDX), Mm(Amx(ECX, AHea))), Mov(Mm(Rib(RibResetHea)), R(EDX))];
    var b := [Mov(R(ESI), Mm(Amx(ECX, AParamCount))), IMul2(ESI, I(4)), Mov(R(EDX), Mm(Amx(ECX, AStk)))];
    var c := [Lea(EDI, Index(EDX, ESI, 0)), Mov(Mm(Rib(RibResetStk)), R(EDI)), Alu(SubOp, R(EDX), I(4))];
    var d := [Mov(Mm(Index(EBX, EDX, 0)), R(ESI)), Mov(Mm(Amx(ECX, AParamCount)), I(0))];
    assert HELPER_PARAMS == a + (b + (c + d));
    var x1 := x.(regs := x.regs.(ecx := env.amxPtr, edx := x.amx.hea), rib := x.rib.(resetHea := x.amx.hea));
    ParamsHea(env, x);
    var x2 := Undef(x1).(regs := x1.regs.(esi := ParamBytes(x.amx), edx := x.amx.stk));
    ParamsSize(env, x1);
    var v := Add(x.amx.stk, ParamBytes(x.amx));
    var x3 := x2.(regs := x2.regs.(edi := v, edx := x.amx.stk - 4), rib := x2.rib.(resetStk := v));
    ParamsReset(env, x2);
    var y := Parametrized(env, x);
    ParamsStore(env, x3, x.amx.stk - 4);
    SeqJoin(env, c, d, x2, x3, y);
    SeqJoin(env, b, c + d, x1, x2, y);
    SeqJoin(env, a, b + (c + d), x, x1, y);
  }

  lemma SwitchEsp(env: Env, x: State)
    ensures Effects(env, [Mov(Mm(Rib(RibEsp)), R(ESP)), Alu(AddOp, R(EDX), R(EBX)), Mov(Mm(Rib(RibAmxEsp)), R(EDX)), Mov(R(ESP), R(EDX))], x)
         == (var v := Add(x.regs.edx, x.regs.ebx);
             Some(Undef(x).(regs := x.regs.(edx := v, esp := v), rib := x.rib.(esp := x.regs.esp, amxEsp := v))))
  {
    hide Effect, Effects, Add;
    var v := Add(x.regs.edx, x.regs.ebx);
    var x1 := x.(rib := x.rib.(esp := x.regs.esp));
    StoresRib(env, x, RibEsp, ESP);
    var x2 := SetReg(Undef(x1), EDX, v);
    Computes(env, x1, AddOp, EDX, R(EBX), x.regs.ebx);
    var x3 := x2.(rib := x2.rib.(amxEsp := v));
    StoresRib(env, x2, RibAmxEsp, EDX);
    MovesReg(env, x3, ESP, EDX);
    Four(env, Mov(Mm(Rib(RibEsp)), R(ESP)), Alu(AddOp, R(EDX), R(EBX)), Mov(Mm(Rib(RibAmxEsp)), R(EDX)), Mov(R(ESP), R(EDX)),
         x, x1, x2, x3, SetReg(x3, ESP, v));
  }

  lemma SwitchFrm(env: Env, x: State)
    requires x.regs.ecx == env.amxPtr
    ensures Effects(env, [Mov(Mm(Rib(RibEbp)), R(EBP)), Mov(R(EDX), Mm(Amx(ECX, AFrm)))], x)
         == Some(x.(regs := x.regs.(edx := x.amx.frm), rib := x.rib.(ebp := x.regs.ebp)))
  {
    hide Effect, Effects;
    var x1 := x.(rib := x.rib.(ebp := x.regs.ebp));
    StoresRib(env, x, RibEbp, EBP);
    MovesAmx(env, x1, EDX, ECX, AFrm);
    Two(env, Mov(Mm(Rib(RibEbp)), R(EBP)), Mov(R(EDX), Mm(Amx(ECX, AFrm))), x, x1, SetReg(x1, EDX, x.amx.frm));
  }

  lemma SwitchEbp(env: Env, x: State)
    ensures Effects(env, [Alu(AddOp, R(EDX), R(EBX)), Mov(Mm(Rib(RibAmxEbp)), R(EDX)), Mov(R(EBP), R(EDX))], x)
         == (var v := Add(x.regs.edx, x.regs.ebx);
             Some(Undef(x).(regs := x.regs.(edx := v, ebp := v), rib := x.rib.(amxEbp := v))))
  {
    hide Effect, Effects, Add;
    var v := Add(x.regs.edx, x.regs.ebx);
    var x1 := SetReg(Undef(x), EDX, v);
    Computes(env, x, AddOp, EDX, R(EBX), x.regs.ebx);
    var x2 := x1.(rib := x1.rib.(amxEbp := v));
    StoresRib(env, x1, RibAmxEbp, EDX);
    MovesReg(env, x2, EBP, EDX);
    Three(env, Alu(AddOp, R(EDX), R(EBX)), Mov(Mm(Rib(RibAmxEbp)), R(EDX)), Mov(R(EBP), R(EDX)), x, x1, x2, SetReg(x2, EBP, v));
  }

  lemma LeaEsp(env: Env, x: State)
    ensures Effect(env, Lea(ECX, At(ESP, M - 4)), x) == Some(SetReg(x, ECX, Add(x.regs.esp, M - 4)))
  {
  }

  lemma SwitchReset(env: Env, x: State)
    ensures Effects(env, [Lea(ECX, At(ESP, M - 4)), Mov(Mm(Rib(RibResetEsp)), R(ECX)), Mov(Mm(Rib(RibResetEbp)), R(EBP))], x)
         == (var v := Add(x.regs.esp, M - 4);
             Some(x.(regs := x.regs.(ecx := v), rib := x.rib.(resetEsp := v, resetEbp := x.regs.ebp))))
  {
    hide Effect, Effects, Add;
    var v := Add(x.regs.esp, M - 4);
    var x1 := SetReg(x, ECX, v);
    LeaEsp(env, x);
    var x2 := x1.(rib := x1.rib.(resetEsp := v));
    StoresRib(env, x1, RibResetEsp, ECX);
    StoresRib(env, x2, RibResetEbp, EBP);
    Three(env, Lea(ECX, At(ESP, M - 4)), Mov(Mm(Rib(RibResetEsp)), R(ECX)), Mov(Mm(Rib(RibResetEbp)), R(EBP)), x, x1, x2,
          x2.(rib := x2.rib.(resetEbp := x.regs.ebp)));
  }

  const SWITCH_CODE: seq<Insn> :=
    [Mov(Mm(Rib(RibEsp)), R(ESP)), Alu(AddOp, R(EDX), R(EBX)), Mov(Mm(Rib(RibAmxEsp)), R(EDX)), Mov(R(ESP), R(EDX))]
    + ([Mov(Mm(Rib(RibEbp)), R(EBP)), Mov(R(EDX), Mm(Amx(ECX, AFrm)))]
    + ([Alu(AddOp, R(EDX), R(EBX)), Mov(Mm(Rib(RibAmxEbp)), R(EDX)), Mov(R(EBP), R(EDX))]
    + [Lea(ECX, At(ESP, M - 4)), Mov(Mm(Rib(RibResetEsp)), R(ECX)), Mov(Mm(Rib(RibResetEbp)), R(EBP))]))

  /** Both stack registers on the AMX stack, the native ones in the runtime block. */
  function Switched(x: State): State {
    var sp, fp := Add(x.regs.edx, x.regs.ebx), Add(x.amx.frm, x.regs.ebx);
    var top := Add(sp, M - 4);
    x.(regs := x.regs.(edx := fp, esp := sp, ebp := fp, ecx := top), fl := NoFlags,
       rib := x.rib.(esp := x.regs.esp, ebp := x.regs.ebp, amxEsp := sp, amxEbp := fp, resetEsp := top, resetEbp := fp))
  }

  lemma Switches(env: Env, x: State)
    requires x.regs.ecx == env.amxPtr
    ensures Effects(env, SWITCH_CODE, x) == Some(Switched(x))
  {
    hide Effects, Add;
    var a := [Mov(Mm(Rib(RibEsp)), R(ESP)), Alu(AddOp, R(EDX), R(EBX)), Mov(Mm(Rib(RibAmxEsp)), R(EDX)), Mov(R(ESP), R(EDX))];
    var b := [Mov(Mm(Rib(RibEbp)), R(EBP)), Mov(R(EDX), Mm(Amx(ECX, AFrm)))];
    var c := [Alu(AddOp, R(EDX), R(EBX)), Mov(Mm(Rib(RibAmxEbp)), R(EDX)), Mov(R(EBP), R(EDX))];
    var d := [Lea(ECX, At(ESP, M - 4)), Mov(Mm(Rib(RibResetEsp)), R(ECX)), Mov(Mm(Rib(RibResetEbp)), R(EBP))];
    var sp, fp := Add(x.regs.edx, x.regs.ebx), Add(x.amx.frm, x.regs.ebx);
    var x1 := Undef(x).(regs := x.regs.(edx := sp, esp := sp), rib := x.rib.(esp := x.regs.esp, amxEsp := sp));
    SwitchEsp(env, x);
    var x2 := x1.(regs := x1.regs.(edx := x.amx.frm), rib := x1.rib.(ebp := x.regs.ebp));
    SwitchFrm(env, x1);
    var x3 := Undef(x2).(regs := x2.regs.(edx := fp, ebp := fp), rib := x2.rib.(amxEbp := fp));
    SwitchEbp(env, x2);
    SwitchReset(env, x3);
    SeqJoin(env, c, d, x2, x3, Switched(x));
    SeqJoin(env, b, c + d, x1, x2, Switched(x));
    SeqJoin(env, a, b + (c + d), x, x1, Switched(x));
  }

  /** call eax: the return address goes to the AMX stack. */
  lemma CallEax(env: Env, x: State, at: int, o: Word, k: int)
    requires Addressed(env) && 0 <= at < |env.code| && env.code[at] == CallReg(EAX)
    requires 0 <= k < |env.addrs| && x.regs.eax == env.addrs[k]
    requires o >= 4 && x.regs.esp == Add(env.base, o) && Has4(x.data, o - 4)
    ensures Reaches(env, Conf(x, at), Conf(x.(regs := x.regs.(esp := Add(env.base, o - 4)), data := Store4(x.data, o - 4, env.addrs[at + 1])), k))
  {
    hide Store4, Has4;
    var y := x.(regs := x.regs.(esp := Add(env.base, o - 4)), data := Store4(x.data, o - 4, env.addrs[at + 1]));
    assert Sub(x.regs.esp, 4) == Add(env.base, o - 4) && Sub(Add(env.base, o - 4), env.base) == o - 4;
    assert PushWord(env, x, env.addrs[at + 1]) == Some(y);
    IndexOfIs(env.addrs, k);
    assert Step(env, Conf(x, at)) == DoCall(env, Conf(x, at), k);
    ReachesStep(env, Conf(x, at), Conf(y, k));
  }
}
