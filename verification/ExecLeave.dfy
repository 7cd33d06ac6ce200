/** From the end of a run, by return or by halt, to the return of Exec. */
module ExecLeave {
  import opened Word32
  import opened X86
  import Amx
  import opened Emit
  import opened Runtime
  import opened Relation
  import opened Insns
  import opened Layout
  import opened SimControl
  import opened SimCalls
  import opened SimIndirect
  import opened Simulation
  import opened Compiler
  import opened ExecEnter
  import opened ExecSwitch
  import opened ExecRuns

  // ---- exec_exit_label ---------------------------------------------------------------------

  lemma ExitSwitches(env: Env, x: State)
    ensures Effects(env, [Mov(Mm(Rib(RibAmxEbp)), R(EBP)), Mov(R(EBP), Mm(Rib(RibEbp))), Mov(Mm(Rib(RibAmxEsp)), R(ESP)), Mov(R(ESP), Mm(Rib(RibEsp)))], x)
         == Some(x.(regs := x.regs.(ebp := x.rib.ebp, esp := x.rib.esp), rib := x.rib.(amxEbp := x.regs.ebp, amxEsp := x.regs.esp)))
  {
    hide Effect, Effects;
    var x1 := x.(rib := x.rib.(amxEbp := x.regs.ebp));
    StoresRib(env, x, RibAmxEbp, EBP);
    var x2 := SetReg(x1, EBP, x.rib.ebp);
    MovesRib(env, x1, EBP, RibEbp);
    var x3 := x2.(rib := x2.rib.(amxEsp := x.regs.esp));
    StoresRib(env, x2, RibAmxEsp, ESP);
    MovesRib(env, x3, ESP, RibEsp);
    Four(env, Mov(Mm(Rib(RibAmxEbp)), R(EBP)), Mov(R(EBP), Mm(Rib(RibEbp))), Mov(Mm(Rib(RibAmxEsp)), R(ESP)), Mov(R(ESP), Mm(Rib(RibEsp))),
         x, x1, x2, x3, SetReg(x3, ESP, x.rib.esp));
  }

  lemma ExitPopsRib(env: Env, x: State, e: int)
    requires Apart(env, x) && Words(x, e, 104, 12) && x.regs.esp == e - 64
    ensures Effects(env, [Pop(Mm(Rib(RibAmxEsp))), Pop(Mm(Rib(RibAmxEbp))), Pop(Mm(Rib(RibEsp))), Pop(Mm(Rib(RibEbp)))], x)
         == Some(x.(regs := x.regs.(esp := e - 48),
                    rib := x.rib.(amxEsp := x.native[e - 64], amxEbp := x.native[e - 60], esp := x.native[e - 56], ebp := x.native[e - 52])))
  {
    hide Effect, Effects, Apart;
    var x1 := SetReg(x, ESP, e - 60).(rib := x.rib.(amxEsp := x.native[e - 64]));
    PopsRib(env, x, RibAmxEsp);
    ApartSame(env, x, x1);
    var x2 := SetReg(x1, ESP, e - 56).(rib := x1.rib.(amxEbp := x.native[e - 60]));
    PopsRib(env, x1, RibAmxEbp);
    ApartSame(env, x, x2);
    var x3 := SetReg(x2, ESP, e - 52).(rib := x2.rib.(esp := x.native[e - 56]));
    PopsRib(env, x2, RibEsp);
    ApartSame(env, x, x3);
    PopsRib(env, x3, RibEbp);
    Four(env, Pop(Mm(Rib(RibAmxEsp))), Pop(Mm(Rib(RibAmxEbp))), Pop(Mm(Rib(RibEsp))), Pop(Mm(Rib(RibEbp))), x, x1, x2, x3,
         SetReg(x3, ESP, e - 48).(rib := x3.rib.(ebp := x.native[e - 52])));
  }

  lemma ExitPopsRegs(env: Env, x: State, e: int)
    requires Apart(env, x) && Words(x, e, 104, 12) && x.regs.esp == e - 48
    ensures Effects(env, [Pop(R(EDI)), Pop(R(ESI))], x)
         == Some(x.(regs := x.regs.(edi := x.native[e - 48], esi := x.native[e - 44], esp := e - 40)))
  {
    hide Effect, Effects, Apart;
    var x1 := SetReg(SetReg(x, ESP, e - 44), EDI, x.native[e - 48]);
    PopsReg(env, x, EDI);
    ApartSame(env, x, x1);
    PopsReg(env, x1, ESI);
    Two(env, Pop(R(EDI)), Pop(R(ESI)), x, x1, SetReg(SetReg(x1, ESP, e - 40), ESI, x.native[e - 44]));
  }

  const EXIT_CODE: seq<Insn> :=
    [Mov(Mm(Rib(RibAmxEbp)), R(EBP)), Mov(R(EBP), Mm(Rib(RibEbp))), Mov(Mm(Rib(RibAmxEsp)), R(ESP)), Mov(R(ESP), Mm(Rib(RibEsp)))]
    + ([Pop(Mm(Rib(RibAmxEsp))), Pop(Mm(Rib(RibAmxEbp))), Pop(Mm(Rib(RibEsp))), Pop(Mm(Rib(RibEbp)))]
    + [Pop(R(EDI)), Pop(R(ESI))])

  /** Behind ExecHelper: the native stack, the outer stack registers of the runtime block. */
  function SwitchedBack(s: State, x: State): State
    requires s.regs.esp >= 104
  {
    x.(regs := x.regs.(ebp := s.regs.esp - 4, esp := s.regs.esp - 36, esi := x.rib.amx, edi := s.regs.edi),
       rib := x.rib.(amxEsp := s.rib.amxEsp, amxEbp := s.rib.amxEbp, esp := s.rib.esp, ebp := s.rib.ebp))
  }

  lemma ExitEffects(env: Env, s: State, x: State)
    requires Running(env, s, x)
    ensures Effects(env, EXIT_CODE, x) == Some(SwitchedBack(s, x).(regs := SwitchedBack(s, x).regs.(esp := s.regs.esp - 40)))
  {
    hide Effects, Apart, Kept;
    var e := s.regs.esp;
    var a := [Mov(Mm(Rib(RibAmxEbp)), R(EBP)), Mov(R(EBP), Mm(Rib(RibEbp))), Mov(Mm(Rib(RibAmxEsp)), R(ESP)), Mov(R(ESP), Mm(Rib(RibEsp)))];
    var b := [Pop(Mm(Rib(RibAmxEsp))), Pop(Mm(Rib(RibAmxEbp))), Pop(Mm(Rib(RibEsp))), Pop(Mm(Rib(RibEbp)))];
    var c := [Pop(R(EDI)), Pop(R(ESI))];
    var x1 := x.(regs := x.regs.(ebp := x.rib.ebp, esp := x.rib.esp), rib := x.rib.(amxEbp := x.regs.ebp, amxEsp := x.regs.esp));
    ExitSwitches(env, x);
    ApartSame(env, x, x1);
    var x2 := x1.(regs := x1.regs.(esp := e - 48),
                  rib := x1.rib.(amxEsp := s.rib.amxEsp, amxEbp := s.rib.amxEbp, esp := s.rib.esp, ebp := s.rib.ebp));
    ExitPopsRib(env, x1, e);
    ApartSame(env, x, x2);
    var x3 := x2.(regs := x2.regs.(edi := s.regs.edi, esi := env.amxPtr, esp := e - 40));
    ExitPopsRegs(env, x2, e);
    SeqJoin(env, b, c, x1, x2, x3);
    SeqJoin(env, a, b + c, x, x1, x3);
  }

  /** ret with its return address, the index k, on the native stack. */
  lemma NativeRet(env: Env, x: State, at: int, k: int)
    requires Apart(env, x) && x.regs.esp < M - 4 && x.regs.esp in x.native && Addressed(env)
    requires 0 <= at < |env.code| && env.code[at] == Ret && 0 <= k < |env.addrs| && x.native[x.regs.esp] == env.addrs[k]
    ensures Reaches(env, Conf(x, at), Conf(SetReg(x, ESP, x.regs.esp + 4), k))
  {
    IndexOfIs(env.addrs, k);
    RetStep(env, x, at, env.addrs[k], k);
  }

  lemma ExitPlaced(env: Env)
    requires CodeAt(env, 81, EXEC_HELPER)
    ensures CodeAt(env, 122, EXIT_CODE) && 132 < |env.code| && env.code[132] == Ret && |EXIT_CODE| == 10
  {
    hide CodeAt;
    HelperPlaced(env, 81);
    assert HELPER_EXIT == EXIT_CODE + [Ret] && |EXIT_CODE| == 10;
    CodeParts(env, 122, EXIT_CODE, [Ret]);
    CodeItem(env, 132, [Ret], 0);
  }

  /** From exec_exit_label to behind Exec's call of ExecHelper. */
  lemma ExitRuns(env: Env, s: State, x: State)
    requires RuntimeAt(env) && Addressed(env) && Running(env, s, x)
    ensures Reaches(env, Conf(x, 122), Conf(SwitchedBack(s, x), 51))
  {
    hide Effects, Effect, Reaches, Step, Run, CodeAt, Apart, RuntimeAt, Addressed, Kept;
    var e := s.regs.esp;
    RuntimeParts(env);
    ExitPlaced(env);
    var y := SwitchedBack(s, x).(regs := SwitchedBack(s, x).regs.(esp := e - 40));
    ExitEffects(env, s, x);
    Straight(env, EXIT_CODE, x, 122, y);
    ApartSame(env, x, y);
    NativeRet(env, y, 132, 51);
    assert SetReg(y, ESP, y.regs.esp + 4) == SwitchedBack(s, x);
    ReachesTrans(env, Conf(x, 122), Conf(y, 132), Conf(SwitchedBack(s, x), 51));
  }

  // ---- the end of Exec ------------------------------------------------------------------------

  /** The pointer argument for the result, 0 or a word above the arguments. */
  ghost predicate ResultPlace(s: State) {
    var e := s.regs.esp;
    && e + 8 < M && e + 8 in s.native
    && (s.native[e + 8] != 0 ==> s.native[e + 8] in s.native && s.native[e + 8] >= e + 12)
  }

  function ResultPtr(s: State): Word {
    if s.regs.esp + 8 < M && s.regs.esp + 8 in s.native then s.native[s.regs.esp + 8] else 0
  }

  /** The caller's words, with the result in its place. */
  function WithResult(s: State, result: Word): map<Word, Word> {
    if ResultPtr(s) != 0 then s.native[ResultPtr(s) := result] else s.native
  }

  lemma DropArgument(env: Env, x: State, e: Word)
    requires 104 <= e && x.regs.esp == e - 36
    ensures Effect(env, Alu(AddOp, R(ESP), I(4)), x) == Some(SetReg(Undef(x), ESP, e - 32))
  {
    hide Effect;
    Computes(env, x, AddOp, ESP, I(4), 4);
  }

  lemma StoreResult(env: Env, x: State, p: Word)
    requires Apart(env, x) && x.regs.ecx == p && p in x.native
    ensures Effect(env, Mov(Mm(At(ECX, 0)), R(EAX)), x) == Some(x.(native := x.native[p := x.regs.eax]))
  {
    hide Effect;
    WritesNative(env, x, ECX, 0, p, EAX);
  }

  /** after_call_label: the result goes where the caller asked, if it did. */
  lemma ResultRuns(env: Env, x: State, e: int, p: Word) returns (y: State)
    requires CodeAt(env, 52, EXEC_RESULT) && Apart(env, x) && Words(x, e, 104, 12) && 104 <= e
    requires x.regs.ebp == e - 4 && x.native[e + 8] == p && (p != 0 ==> p in x.native)
    ensures Reaches(env, Conf(x, 52), Conf(y, 56))
    ensures y == x.(regs := x.regs.(ecx := p), fl := y.fl, native := if p != 0 then x.native[p := x.regs.eax] else x.native)
  {
    hide Effect, Effects, Reaches, Step, Run, CodeAt, Apart, Words;
    assert e + 8 < M && e + 8 in x.native by { WordThere(x, e); }
    var t := [Test(ECX, R(ECX)), Jcc(E, Skip(1))];
    assert EXEC_RESULT == [Mov(R(ECX), Local(12))] + (t + [Mov(Mm(At(ECX, 0)), R(EAX))]);
    CodeParts(env, 52, [Mov(R(ECX), Local(12))], t + [Mov(Mm(At(ECX, 0)), R(EAX))]);
    CodeParts(env, 53, t, [Mov(Mm(At(ECX, 0)), R(EAX))]);
    CodeItem(env, 52, [Mov(R(ECX), Local(12))], 0);
    CodeItem(env, 55, [Mov(Mm(At(ECX, 0)), R(EAX))], 0);
    var x1 := SetReg(x, ECX, p);
    ReadsNative(env, x, EBP, 12, e + 8);
    Moves(env, x, ECX, Local(12), p);
    PlainStep(env, Mov(R(ECX), Local(12)), x, 52, x1);
    var x2 := x1.(fl := TestFlags(p));
    TestSelf(env, x1, ECX);
    TestAndJump(env, x1, 53, Test(ECX, R(ECX)), E, Skip(1), x2.fl, 56);
    ReachesTrans(env, Conf(x, 52), Conf(x1, 53), Conf(x2, if p == 0 then 56 else 55));
    y := x2;
    if p != 0 {
      ApartSame(env, x, x2);
      StoreResult(env, x2, p);
      y := x2.(native := x2.native[p := x.regs.eax]);
      PlainStep(env, Mov(Mm(At(ECX, 0)), R(EAX)), x2, 55, y);
      ReachesTrans(env, Conf(x, 52), Conf(x2, 55), Conf(y, 56));
    }
  }

  lemma WordThere(x: State, e: int)
    requires Words(x, e, 104, 12)
    ensures e + 8 < M && e + 8 in x.native
  {
  }

  lemma RestoreOne(env: Env, x: State, f: RibField, k: int, a: Word)
    requires Apart(env, x) && a in x.native && Add(x.regs.ebp, Wrap(k)) == a
    ensures Effects(env, [Mov(R(EAX), Local(k)), Mov(Mm(Rib(f)), R(EAX))], x)
         == Some(x.(regs := x.regs.(eax := x.native[a]), rib := SetRib(x.rib, f, x.native[a])))
  {
    hide Effect, Effects, Apart, SetRib, Wrap, Add;
    var x1 := SetReg(x, EAX, x.native[a]);
    ReadsNative(env, x, EBP, Wrap(k), a);
    Moves(env, x, EAX, Local(k), x.native[a]);
    StoresRib(env, x1, f, EAX);
    Two(env, Mov(R(EAX), Local(k)), Mov(Mm(Rib(f)), R(EAX)), x, x1, x1.(rib := SetRib(x.rib, f, x.native[a])));
  }

  const RESETS_CODE: seq<Insn> :=
    ([Mov(R(EAX), Local(-8)), Mov(Mm(Rib(RibResetEbp)), R(EAX))] + [Mov(R(EAX), Local(-12)), Mov(Mm(Rib(RibResetEsp)), R(EAX))])
    + ([Mov(R(EAX), Local(-16)), Mov(Mm(Rib(RibResetStk)), R(EAX))] + [Mov(R(EAX), Local(-20)), Mov(Mm(Rib(RibResetHea)), R(EAX))])

  lemma RestoreResets(env: Env, x: State, e: int)
    requires Apart(env, x) && Words(x, e, 104, 12) && x.regs.ebp == e - 4
    ensures Effects(env, RESETS_CODE, x)
         == Some(x.(regs := x.regs.(eax := x.native[e - 24]),
                    rib := x.rib.(resetEbp := x.native[e - 12], resetEsp := x.native[e - 16], resetStk := x.native[e - 20], resetHea := x.native[e - 24])))
  {
    hide Effects, Apart;
    var x1 := x.(regs := x.regs.(eax := x.native[e - 12]), rib := x.rib.(resetEbp := x.native[e - 12]));
    RestoreOne(env, x, RibResetEbp, -8, e - 12);
    ApartSame(env, x, x1);
    var x2 := x1.(regs := x1.regs.(eax := x.native[e - 16]), rib := x1.rib.(resetEsp := x.native[e - 16]));
    RestoreOne(env, x1, RibResetEsp, -12, e - 16);
    ApartSame(env, x, x2);
    var x3 := x2.(regs := x2.regs.(eax := x.native[e - 20]), rib := x2.rib.(resetStk := x.native[e - 20]));
    RestoreOne(env, x2, RibResetStk, -16, e - 20);
    ApartSame(env, x, x3);
    var x4 := x3.(regs := x3.regs.(eax := x.native[e - 24]), rib := x3.rib.(resetHea := x.native[e - 24]));
    RestoreOne(env, x3, RibResetHea, -20, e - 24);
    var a, b := [Mov(R(EAX), Local(-8)), Mov(Mm(Rib(RibResetEbp)), R(EAX))], [Mov(R(EAX), Local(-12)), Mov(Mm(Rib(RibResetEsp)), R(EAX))];
    var c, d := [Mov(R(EAX), Local(-16)), Mov(Mm(Rib(RibResetStk)), R(EAX))], [Mov(R(EAX), Local(-20)), Mov(Mm(Rib(RibResetHea)), R(EAX))];
    SeqJoin(env, a, b, x, x1, x2);
    SeqJoin(env, c, d, x2, x3, x4);
    SeqJoin(env, a + b, c + d, x, x2, x4);
  }

  lemma ExchangeError(env: Env, x: State)
    requires x.regs.esi == env.amxPtr
    ensures Effect(env, Xchg(Mm(Amx(ESI, AError)), EAX), x) == Some(SetReg(x, EAX, x.amx.error).(amx := x.amx.(error := x.regs.eax)))
  {
  }

  lemma TakeError(env: Env, x: State)
    requires x.regs.esi == env.amxPtr
    ensures Effects(env, [Mov(R(EAX), I(AMX_ERR_NONE)), Xchg(Mm(Amx(ESI, AError)), EAX)], x)
         == Some(x.(regs := x.regs.(eax := x.amx.error), amx := x.amx.(error := AMX_ERR_NONE)))
  {
    hide Effect, Effects;
    var x1 := SetReg(x, EAX, AMX_ERR_NONE);
    Moves(env, x, EAX, I(AMX_ERR_NONE), AMX_ERR_NONE);
    ExchangeError(env, x1);
    Two(env, Mov(R(EAX), I(AMX_ERR_NONE)), Xchg(Mm(Amx(ESI, AError)), EAX), x, x1, SetReg(x1, EAX, x.amx.error).(amx := x.amx.(error := AMX_ERR_NONE)));
  }

  /** finish_label: the outer reset values are back in the runtime block, the error is in eax
      and cleared in the AMX structure. */
  lemma RestoreRuns(env: Env, x: State, e: int) returns (y: State)
    requires CodeAt(env, 56, EXEC_RESTORE) && Apart(env, x) && Words(x, e, 104, 12) && x.regs.ebp == e - 4 && x.regs.esi == env.amxPtr
    ensures Reaches(env, Conf(x, 56), Conf(y, 66))
    ensures y == x.(regs := x.regs.(eax := x.amx.error), amx := x.amx.(error := AMX_ERR_NONE),
                    rib := x.rib.(resetEbp := x.native[e - 12], resetEsp := x.native[e - 16], resetStk := x.native[e - 20], resetHea := x.native[e - 24]))
  {
    hide Effect, Effects, Reaches, Step, Run, CodeAt, Apart;
    var d := [Mov(R(EAX), I(AMX_ERR_NONE)), Xchg(Mm(Amx(ESI, AError)), EAX)];
    assert EXEC_RESTORE == RESETS_CODE + d;
    var x1 := x.(regs := x.regs.(eax := x.native[e - 24]),
                 rib := x.rib.(resetEbp := x.native[e - 12], resetEsp := x.native[e - 16], resetStk := x.native[e - 20], resetHea := x.native[e - 24]));
    RestoreResets(env, x, e);
    TakeError(env, x1);
    y := x1.(regs := x1.regs.(eax := x.amx.error), amx := x.amx.(error := AMX_ERR_NONE));
    SeqJoin(env, RESETS_CODE, d, x, x1, y);
    Straight(env, EXEC_RESTORE, x, 56, y);
    assert |EXEC_RESTORE| == 10;
  }

  /** What a call of Exec leaves: the caller's registers and stack, the runtime block as it was
      before the call, the result where the caller asked for it, and the error code in eax. */
  ghost predicate Returned(s: State, y: State, result: Word, error: Word) {
    && Unwound(s, y) && y.rib == s.rib && y.regs.eax == error && y.amx.error == AMX_ERR_NONE
    && Above(WithResult(s, result), y.native, s.regs.esp)
  }

  lemma ResultKept(env: Env, s: State, n: map<Word, Word>, result: Word)
    requires Framed(env, s, n) && ResultPlace(s) && 104 <= s.regs.esp
    ensures var m := if ResultPtr(s) != 0 then n[ResultPtr(s) := result] else n;
            && m.Keys == n.Keys && Framed(env, s.(native := WithResult(s, result)), m)
  {
  }

  lemma ResultArgument(env: Env, s: State, n: map<Word, Word>)
    requires Framed(env, s, n) && ResultPlace(s)
    ensures s.regs.esp + 8 in n && n[s.regs.esp + 8] == ResultPtr(s) && n.Keys == s.native.Keys
  {
  }

  /** From behind the call of ExecHelper to the return of Exec. */
  lemma FinishRuns(env: Env, s: State, x: State) returns (y: State)
    requires CodeAt(env, 0, EXEC) && 104 <= s.regs.esp && ResultPlace(s)
    requires Framed(env, s, x.native) && Apart(env, x) && Words(x, s.regs.esp, 104, 12)
    requires x.regs.ebp == s.regs.esp - 4 && x.regs.esp == s.regs.esp - 36 && x.regs.esi == env.amxPtr && x.regs.edi == s.regs.edi
    requires x.rib == s.rib.(resetEbp := x.rib.resetEbp, resetEsp := x.rib.resetEsp, resetStk := x.rib.resetStk, resetHea := x.rib.resetHea)
    ensures Reaches(env, Conf(x, 51), Conf(y, 70)) && Returned(s, y, x.regs.eax, x.amx.error)
    ensures y.data == x.data && y.amx == x.amx.(error := AMX_ERR_NONE)
    ensures 70 < |env.code| && env.code[70] == Ret
  {
    hide Effect, Effects, Reaches, Step, Run, CodeAt, Apart, Framed, ResultPlace, ResultPtr, WithResult;
    var e := s.regs.esp;
    var r := ResultPtr(s);
    ExecPlaced(env);
    SavePlaced(env);
    CodeItem(env, 51, [Alu(AddOp, R(ESP), I(4))], 0);
    var x1 := SetReg(Undef(x), ESP, e - 32);
    DropArgument(env, x, e);
    PlainStep(env, Alu(AddOp, R(ESP), I(4)), x, 51, x1);
    ApartSame(env, x, x1);
    ResultArgument(env, s, x.native);
    assert r != 0 ==> r in x.native by { ResultThere(s); }
    var x2 := ResultRuns(env, x1, e, r);
    ReachesTrans(env, Conf(x, 51), Conf(x1, 52), Conf(x2, 56));
    ResultKept(env, s, x.native, x.regs.eax);
    ApartSame(env, x, x2);
    var x3 := RestoreRuns(env, x2, e);
    ReachesTrans(env, Conf(x, 51), Conf(x2, 56), Conf(x3, 66));
    var t := s.(native := WithResult(s, x.regs.eax));
    assert Inside(env, t, x3) && x3.rib == s.rib by { Restored(env, t, x2, x3); }
    y := EpilogueRuns(env, t, x3);
    ReachesTrans(env, Conf(x, 51), Conf(x3, 66), Conf(y, 70));
    assert Above(t.native, y.native, e) by { KeptAbove(t, x3.native); }
  }

  lemma KeptAbove(s: State, n: map<Word, Word>)
    requires Kept(s, n)
    ensures Above(s.native, n, s.regs.esp)
  {
  }

  lemma ResultThere(s: State)
    requires ResultPlace(s)
    ensures ResultPtr(s) != 0 ==> ResultPtr(s) in s.native
  {
  }

  lemma Restored(env: Env, t: State, x: State, y: State)
    requires 104 <= t.regs.esp && Framed(env, t, x.native) && Apart(env, x) && Words(x, t.regs.esp, 104, 12)
    requires x.regs.ebp == t.regs.esp - 4 && x.regs.esp == t.regs.esp - 32 && x.regs.esi == env.amxPtr && x.regs.edi == t.regs.edi
    requires x.rib == t.rib.(resetEbp := x.rib.resetEbp, resetEsp := x.rib.resetEsp, resetStk := x.rib.resetStk, resetHea := x.rib.resetHea)
    requires y == x.(regs := x.regs.(eax := x.amx.error), amx := x.amx.(error := AMX_ERR_NONE),
                     rib := x.rib.(resetEbp := x.native[t.regs.esp - 12], resetEsp := x.native[t.regs.esp - 16],
                                   resetStk := x.native[t.regs.esp - 20], resetHea := x.native[t.regs.esp - 24]))
    ensures Inside(env, t, y) && y.rib == t.rib
  {
    ApartSame(env, x, y);
  }

  /** A run that got to exec_exit_label, by a return or by a halt at any call depth, leaves
      Exec the way its caller expects. */
  lemma ExecReturns(env: Env, s: State, x: State) returns (y: State)
    requires RuntimeAt(env) && Addressed(env) && Running(env, s, x) && ResultPlace(s) && s.rib.amx == env.amxPtr
    ensures Reaches(env, Conf(x, 122), Conf(y, 70)) && Returned(s, y, x.regs.eax, x.amx.error)
    ensures y.data == x.data && y.amx == x.amx.(error := AMX_ERR_NONE)
    ensures 70 < |env.code| && env.code[70] == Ret
  {
    hide Reaches, CodeAt, Apart, RuntimeAt, Addressed, Framed, ResultPlace, Returned;
    RuntimeParts(env);
    var z := SwitchedBack(s, x);
    ExitRuns(env, s, x);
    ApartSame(env, x, z);
    y := FinishRuns(env, s, z);
    ReachesTrans(env, Conf(x, 122), Conf(z, 51), Conf(y, 70));
  }

  // ---- a normal return of the function ----------------------------------------------------------

  lemma SyncHead(env: Env, x: State)
    requires x.rib.amx == env.amxPtr
    ensures Effects(env, [Mov(R(ESI), Mm(Rib(RibAmx))), Mov(R(EDI), Mm(Amx(ESI, AError))), Mov(Mm(Amx(ESI, APri)), R(EAX))], x)
         == Some(x.(regs := x.regs.(esi := env.amxPtr, edi := x.amx.error), amx := x.amx.(pri := x.regs.eax)))
  {
    hide Effect, Effects;
    var x1 := SetReg(x, ESI, env.amxPtr);
    MovesRib(env, x, ESI, RibAmx);
    var x2 := SetReg(x1, EDI, x.amx.error);
    MovesAmx(env, x1, EDI, ESI, AError);
    StoresAmx(env, x2, ESI, APri, R(EAX), x.regs.eax);
    Three(env, Mov(R(ESI), Mm(Rib(RibAmx))), Mov(R(EDI), Mm(Amx(ESI, AError))), Mov(Mm(Amx(ESI, APri)), R(EAX)), x, x1, x2,
          x2.(amx := x.amx.(pri := x.regs.eax)));
  }

  lemma SyncAlt(env: Env, x: State)
    requires x.regs.esi == env.amxPtr
    ensures Effects(env, [Mov(Mm(Amx(ESI, AAlt)), R(ECX)), Mov(R(EDX), R(EBP))], x)
         == Some(x.(regs := x.regs.(edx := x.regs.ebp), amx := x.amx.(alt := x.regs.ecx)))
  {
    hide Effect, Effects;
    var x1 := x.(amx := x.amx.(alt := x.regs.ecx));
    StoresAmx(env, x, ESI, AAlt, R(ECX), x.regs.ecx);
    MovesReg(env, x1, EDX, EBP);
    Two(env, Mov(Mm(Amx(ESI, AAlt)), R(ECX)), Mov(R(EDX), R(EBP)), x, x1, SetReg(x1, EDX, x.regs.ebp));
  }

  /** The registers of a state that corresponds to b, in the AMX structure. */
  function SyncedBack(env: Env, x: State): State {
    Undef(x).(regs := x.regs.(esi := env.amxPtr, edi := x.amx.error, edx := Sub(x.regs.esp, x.regs.ebx)),
              amx := x.amx.(pri := x.regs.eax, alt := x.regs.ecx, frm := Sub(x.regs.ebp, x.regs.ebx), stk := Sub(x.regs.esp, x.regs.ebx)))
  }

  lemma SyncEffects(env: Env, x: State)
    requires x.rib.amx == env.amxPtr
    ensures Effects(env, HELPER_SYNC, x) == Some(SyncedBack(env, x))
  {
    hide Effects, Sub;
    var a := [Mov(R(ESI), Mm(Rib(RibAmx))), Mov(R(EDI), Mm(Amx(ESI, AError))), Mov(Mm(Amx(ESI, APri)), R(EAX))];
    var b := [Mov(Mm(Amx(ESI, AAlt)), R(ECX)), Mov(R(EDX), R(EBP))];
    var c := [Alu(SubOp, R(EDX), R(EBX)), Mov(Mm(Amx(ESI, AFrm)), R(EDX)), Mov(R(EDX), R(ESP))];
    var d := [Alu(SubOp, R(EDX), R(EBX)), Mov(Mm(Amx(ESI, AStk)), R(EDX))];
    assert HELPER_SYNC == a + (b + (c + d));
    var x1 := x.(regs := x.regs.(esi := env.amxPtr, edi := x.amx.error), amx := x.amx.(pri := x.regs.eax));
    SyncHead(env, x);
    var x2 := x1.(regs := x1.regs.(edx := x.regs.ebp), amx := x1.amx.(alt := x.regs.ecx));
    SyncAlt(env, x1);
    var x3 := Undef(x2).(regs := x2.regs.(edx := x2.regs.esp), amx := x2.amx.(frm := Sub(x2.regs.edx, x2.regs.ebx)));
    SyncThree(env, x2);
    SyncFour(env, x3);
    SeqJoin(env, c, d, x2, x3, SyncedBack(env, x));
    SeqJoin(env, b, c + d, x1, x2, SyncedBack(env, x));
    SeqJoin(env, a, b + (c + d), x, x1, SyncedBack(env, x));
  }

  /** call_return_label: PRI, ALT, FRM and STK go to the AMX structure. */
  lemma SyncRuns(env: Env, x: State)
    requires RuntimeAt(env) && Addressed(env) && x.rib.amx == env.amxPtr
    ensures Reaches(env, Conf(x, 112), Conf(SyncedBack(env, x), 122))
    ensures var b := SyncedBack(env, x).amx;
            && b.pri == x.regs.eax && b.alt == x.regs.ecx && b.frm == Sub(x.regs.ebp, x.regs.ebx) && b.stk == Sub(x.regs.esp, x.regs.ebx)
            && b == x.amx.(pri := b.pri, alt := b.alt, frm := b.frm, stk := b.stk)
  {
    hide Effects, Reaches, CodeAt, RuntimeAt, Addressed;
    RuntimeParts(env);
    HelperPlaced(env, 81);
    SyncEffects(env, x);
    Straight(env, HELPER_SYNC, x, 112, SyncedBack(env, x));
    assert |HELPER_SYNC| == 10;
  }
}
