/** A call of Exec up to the first instruction of the public function, or up to the return
    with an error code. */
module ExecRuns {
  import opened Word32
  import opened X86
  import Amx
  import opened Emit
  import opened Runtime
  import opened Relation
  import opened Insns
  import opened Layout
  import opened SimControl
  import opened SimCalls
  import opened SimIndirect
  import opened Compiler
  import opened ExecEnter
  import opened ExecSwitch

  // ---- ExecHelper ------------------------------------------------------------------------

  lemma HelperPlaced(env: Env, at: int)
    requires CodeAt(env, at, EXEC_HELPER)
    ensures CodeAt(env, at, HELPER_SAVE) && CodeAt(env, at + 7, HELPER_PARAMS) && CodeAt(env, at + 18, SWITCH_CODE)
    ensures 0 <= at && at + 30 < |env.code| && env.code[at + 30] == CallReg(EAX)
    ensures CodeAt(env, at + 31, HELPER_SYNC) && CodeAt(env, at + 41, HELPER_EXIT)
  {
    hide CodeAt;
    var s := SWITCH_CODE;
    assert HELPER_SWITCH == s + [CallReg(EAX)];
    assert |s| == 12;
    HelperPieces(env, at, HELPER_SAVE, HELPER_PARAMS, s, [CallReg(EAX)], HELPER_SYNC, HELPER_EXIT);
  }

  lemma AtStart(env: Env, at: int, c: seq<Insn>)
    requires CodeAt(env, at, c)
    ensures 0 <= at && at + |c| <= |env.code|
  {
  }

  lemma HelperPieces(env: Env, at: int, a: seq<Insn>, b: seq<Insn>, c: seq<Insn>, d: seq<Insn>, e: seq<Insn>, f: seq<Insn>)
    requires CodeAt(env, at, a + (b + ((c + d) + (e + f))))
    requires |a| == 7 && |b| == 11 && |c| == 12 && |d| == 1 && |e| == 10
    ensures CodeAt(env, at, a) && CodeAt(env, at + 7, b) && CodeAt(env, at + 18, c)
    ensures 0 <= at && at + 30 < |env.code| && env.code[at + 30] == d[0]
    ensures CodeAt(env, at + 31, e) && CodeAt(env, at + 41, f)
  {
    hide CodeAt;
    CodeParts(env, at, a, b + ((c + d) + (e + f)));
    CodeParts(env, at + 7, b, (c + d) + (e + f));
    CodeParts(env, at + 18, c + d, e + f);
    CodeParts(env, at + 18, c, d);
    CodeItem(env, at + 30, d, 0);
    assert 0 <= at by { AtStart(env, at, a); }
    CodeParts(env, at + 31, e, f);
  }

  /** The state behind ExecHelper's call of the compiled code; p is the address called. */
  function Entered(env: Env, x: State, e: int, at: int): State
    requires 104 <= e < M && e - 36 in x.native && 8 <= x.amx.stk && 0 <= at && at + 31 < |env.addrs|
  {
    var stk, v := x.amx.stk, ParamBytes(x.amx);
    var fp := Add(x.amx.frm, env.base);
    x.(regs := x.regs.(eax := x.native[e - 36], ecx := Add(Add(stk - 4, env.base), M - 4), edx := fp,
                       esp := Add(env.base, stk - 8), ebp := fp, esi := v, edi := Add(stk, v)),
       fl := NoFlags,
       data := Store4(Store4(x.data, stk - 4, v), stk - 8, env.addrs[at + 31]),
       native := HelperFrame(x, e),
       rib := x.rib.(resetHea := x.amx.hea, resetStk := Add(stk, v), esp := e - 64, ebp := x.regs.ebp,
                     amxEsp := Add(stk - 4, env.base), amxEbp := fp, resetEsp := Add(Add(stk - 4, env.base), M - 4), resetEbp := fp),
       amx := x.amx.(paramCount := 0))
  }

  lemma HelperEnters(env: Env, x: State, e: int, at: int, k: int)
    requires Addressed(env) && CodeAt(env, at, EXEC_HELPER)
    requires Apart(env, x) && Words(x, e, 104, 12) && x.regs.esp == e - 40 && x.rib.amx == env.amxPtr && x.regs.ebx == env.base
    requires 8 <= x.amx.stk && Has4(x.data, x.amx.stk - 4) && Has4(x.data, x.amx.stk - 8)
    requires 0 <= k < |env.addrs| && x.native[e - 36] == env.addrs[k]
    ensures 0 <= at && at + 31 < |env.addrs|
    ensures Reaches(env, Conf(x, at), Conf(Entered(env, x, e, at), k))
  {
    hide Effect, Effects, Reaches, Step, Run, Apart, CodeAt, Store4, ParamBytes, HelperFrame;
    HelperPlaced(env, at);
    var y1 := x.(regs := x.regs.(eax := x.native[e - 36], esp := e - 64), native := HelperFrame(x, e));
    HelperSaves(env, x, e);
    Straight(env, HELPER_SAVE, x, at, y1);
    var y2 := Parametrized(env, y1);
    Params(env, y1);
    Straight(env, HELPER_PARAMS, y1, at + 7, y2);
    var y3 := Switched(y2);
    Switches(env, y2);
    Straight(env, SWITCH_CODE, y2, at + 18, y3);
    ReachesTrans(env, Conf(x, at), Conf(y1, at + 7), Conf(y2, at + 18));
    ReachesTrans(env, Conf(x, at), Conf(y2, at + 18), Conf(y3, at + 30));
    assert Has4(y3.data, x.amx.stk - 8) by { StoreHas(x.data, x.amx.stk - 4, ParamBytes(x.amx), x.amx.stk - 8); }
    CallEax(env, y3, at + 30, x.amx.stk - 4, k);
    ReachesTrans(env, Conf(x, at), Conf(y3, at + 30), Conf(Entered(env, x, e, at), k));
  }

  lemma StoreHas(d: Data, o: int, v: Word, p: int)
    requires Has4(d, p)
    ensures Has4(Store4(d, o, v), p)
  {
  }

  // ---- Exec --------------------------------------------------------------------------------

  lemma ExecPlaced(env: Env)
    requires CodeAt(env, 0, EXEC)
    ensures CodeAt(env, 0, EXEC_PROLOGUE) && CodeAt(env, 7, EXEC_DATA) && CodeAt(env, 12, EXEC_CHECKS)
    ensures CodeAt(env, 27, EXEC_LOOKUP) && CodeAt(env, 41, EXEC_SAVE) && CodeAt(env, 52, EXEC_RESULT)
    ensures CodeAt(env, 56, EXEC_RESTORE) && CodeAt(env, 66, EXEC_EPILOGUE) && CodeAt(env, 71, EXEC_ERRORS)
  {
    hide CodeAt;
    Lengths();
    ExecPieces(env, EXEC_PROLOGUE, EXEC_DATA, EXEC_CHECKS, EXEC_LOOKUP, EXEC_SAVE, EXEC_RESULT, EXEC_RESTORE, EXEC_EPILOGUE, EXEC_ERRORS);
  }

  lemma ExecPieces(env: Env, a: seq<Insn>, b: seq<Insn>, c: seq<Insn>, d: seq<Insn>, e: seq<Insn>, f: seq<Insn>, g: seq<Insn>,
                   h: seq<Insn>, i: seq<Insn>)
    requires CodeAt(env, 0, a + (b + (c + (d + (e + (f + (g + (h + i))))))))
    requires |a| == 7 && |b| == 5 && |c| == 15 && |d| == 14 && |e| == 11 && |f| == 4 && |g| == 10 && |h| == 5
    ensures CodeAt(env, 0, a) && CodeAt(env, 7, b) && CodeAt(env, 12, c) && CodeAt(env, 27, d) && CodeAt(env, 41, e)
    ensures CodeAt(env, 52, f) && CodeAt(env, 56, g) && CodeAt(env, 66, h) && CodeAt(env, 71, i)
  {
    hide CodeAt;
    CodeParts(env, 0, a, b + (c + (d + (e + (f + (g + (h + i)))))));
    CodeParts(env, 7, b, c + (d + (e + (f + (g + (h + i))))));
    CodeParts(env, 12, c, d + (e + (f + (g + (h + i)))));
    CodeParts(env, 27, d, e + (f + (g + (h + i))));
    CodeParts(env, 41, e, f + (g + (h + i)));
    CodeParts(env, 52, f, g + (h + i));
    CodeParts(env, 56, g, h + i);
    CodeParts(env, 66, h, i);
  }

  lemma LookupPlaced(env: Env)
    requires CodeAt(env, 27, EXEC_LOOKUP)
    ensures CodeAt(env, 27, PUBLIC_CODE) && CodeAt(env, 33, [Test(EAX, R(EAX)), Jcc(E, Skip(EXEC_INDEX - 35))]) && CodeAt(env, 35, POINTER_CODE)
  {
    hide CodeAt;
    var t := [Test(EAX, R(EAX)), Jcc(E, Skip(EXEC_INDEX - 35))];
    assert EXEC_LOOKUP == PUBLIC_CODE + (t + POINTER_CODE);
    CodeParts(env, 27, PUBLIC_CODE, t + POINTER_CODE);
    CodeParts(env, 33, t, POINTER_CODE);
  }

  lemma SavePlaced(env: Env)
    requires CodeAt(env, 41, EXEC_SAVE)
    ensures CodeAt(env, 41, SAVE_CODE) && CodeAt(env, 49, [Push(Local(-4)), Call(ToHelper(ExecHelper))])
    ensures CodeAt(env, 51, [Alu(AddOp, R(ESP), I(4))])
  {
    hide CodeAt;
    var t, u := [Push(Local(-4)), Call(ToHelper(ExecHelper))], [Alu(AddOp, R(ESP), I(4))];
    assert |SAVE_CODE| == 8;
    assert EXEC_SAVE == SAVE_CODE + (t + u);
    CodeParts(env, 41, SAVE_CODE, t + u);
    CodeParts(env, 49, t, u);
  }

  ghost predicate Stored(n: map<Word, Word>, a: int, v: Word) { 0 <= a < M && a in n && n[a] == v }

  ghost predicate Same(n: map<Word, Word>, a: int, m: map<Word, Word>, b: int) { a in n && b in m && n[a] == m[b] }

  /** What holds of the native stack while Exec, called in state s, is active. */
  ghost predicate Kept(s: State, n: map<Word, Word>) {
    var e := s.regs.esp;
    && Above(s.native, n, e)
    && Stored(n, e - 4, s.regs.ebp) && Stored(n, e - 28, s.regs.esi) && Stored(n, e - 32, s.regs.ebx)
  }

  /** Within Exec, called in state s. */
  ghost predicate Inside(env: Env, s: State, x: State) {
    var e := s.regs.esp;
    && 104 <= e && x.regs.ebp == e - 4 && x.regs.esp == e - 32 && x.regs.esi == env.amxPtr && x.regs.edi == s.regs.edi
    && Kept(s, x.native) && Apart(env, x) && Words(x, e, 104, 12)
  }

  /** What C code guarantees when it calls Exec, or leaves behind: m describes the data block. */
  ghost predicate Sound(env: Env, cfg: Amx.Cfg, m: Amx.Memory, s: State) {
    && s.rib.amx == env.amxPtr && DataPointer(env, s.amx) == env.base && s.amx.stp == cfg.stp
    && MemRel(env, cfg, m, s.data) && Apart(env, s)
  }

  lemma PrologueInside(env: Env, s: State)
    requires Apart(env, s) && Words(s, s.regs.esp, 104, 12) && s.rib.amx == env.amxPtr
    ensures Inside(env, s, Prologued(env, s))
  {
    ApartSame(env, s, Prologued(env, s));
  }

  lemma InsideSame(env: Env, s: State, x: State, y: State)
    requires Inside(env, s, x) && y.native == x.native && y.data == x.data
    requires y.regs.ebp == x.regs.ebp && y.regs.esp == x.regs.esp && y.regs.esi == x.regs.esi && y.regs.edi == x.regs.edi
    ensures Inside(env, s, y)
  {
    ApartSame(env, x, y);
  }

  /** From the entry of Exec to the end of the checks: the error exit or the call of
      GetPublicAddress. */
  lemma ExecChecks(env: Env, s: State) returns (x: State)
    requires CodeAt(env, 0, EXEC)
    requires Apart(env, s) && Words(s, s.regs.esp, 104, 12) && s.rib.amx == env.amxPtr && DataPointer(env, s.amx) == env.base
    ensures Inside(env, s, x) && x.regs.ebx == env.base && x.rib == s.rib && x.data == s.data && x.amx == s.amx
    ensures Reaches(env, Conf(s, 0), Conf(x, CheckExit(s.amx)))
  {
    hide Effects, Effect, Reaches, Step, Run, CodeAt, Inside, Apart, CheckExit, DataPointer;
    ExecPlaced(env);
    var x1 := Prologued(env, s);
    Prologue(env, s);
    PrologueInside(env, s);
    Straight(env, EXEC_PROLOGUE, s, 0, x1);
    var x2 := DataRuns(env, x1, 7);
    InsideSame(env, s, x1, x2);
    ReachesTrans(env, Conf(s, 0), Conf(x1, 7), Conf(x2, 12));
    x := AllChecks(env, x2, 0);
    InsideSame(env, s, x2, x);
    ReachesTrans(env, Conf(s, 0), Conf(x2, 12), Conf(x, CheckExit(s.amx)));
  }

  /** The error code that Exec returns without running anything, 0 when it calls the function. */
  function ExecError(env: Env, s: State): Word {
    var exit := CheckExit(s.amx);
    if exit == EXEC_STACKERR then AMX_ERR_STACKERR
    else if exit == EXEC_STACKLOW then AMX_ERR_STACKLOW
    else if exit == EXEC_HEAPLOW then AMX_ERR_HEAPLOW
    else if exit == EXEC_NOTFOUND then AMX_ERR_NOTFOUND
    else if s.regs.esp < M - 4 && s.regs.esp + 4 in s.native && Public(env, s.native[s.regs.esp + 4]) == 0 then AMX_ERR_INDEX
    else AMX_ERR_NONE
  }

  lemma EpilogueHead(env: Env, x: State)
    requires Apart(env, x) && x.regs.esp < M - 8 && x.regs.esp in x.native && x.regs.esp + 4 in x.native
    ensures Effects(env, [Pop(R(EBX)), Pop(R(ESI)), Mov(R(ESP), R(EBP))], x)
         == Some(x.(regs := x.regs.(ebx := x.native[x.regs.esp], esi := x.native[x.regs.esp + 4], esp := x.regs.ebp)))
  {
    hide Effect, Effects, Apart;
    var x1 := SetReg(SetReg(x, ESP, x.regs.esp + 4), EBX, x.native[x.regs.esp]);
    PopsReg(env, x, EBX);
    ApartSame(env, x, x1);
    var x2 := SetReg(SetReg(x1, ESP, x.regs.esp + 8), ESI, x.native[x.regs.esp + 4]);
    PopsReg(env, x1, ESI);
    MovesReg(env, x2, ESP, EBP);
    Three(env, Pop(R(EBX)), Pop(R(ESI)), Mov(R(ESP), R(EBP)), x, x1, x2, SetReg(x2, ESP, x.regs.ebp));
  }

  /** The saved registers are back and the return address is on top of the native stack. */
  ghost predicate Unwound(s: State, y: State) {
    && y.regs.esp == s.regs.esp && y.regs.ebp == s.regs.ebp && y.regs.ebx == s.regs.ebx
    && y.regs.esi == s.regs.esi && y.regs.edi == s.regs.edi
  }

  /** From return_label to the ret instruction. */
  lemma EpilogueRuns(env: Env, s: State, x: State) returns (y: State)
    requires CodeAt(env, 66, EXEC_EPILOGUE) && Inside(env, s, x)
    ensures Reaches(env, Conf(x, 66), Conf(y, 70)) && Unwound(s, y) && y == x.(regs := y.regs) && y.regs.eax == x.regs.eax
    ensures 70 < |env.code| && env.code[70] == Ret
  {
    hide Effects, Effect, Reaches, Step, Run, CodeAt, Apart;
    var e := s.regs.esp;
    EpilogueCode(env);
    var x1 := x.(regs := x.regs.(ebx := x.native[e - 32], esi := x.native[e - 28], esp := e - 4));
    EpilogueHead(env, x);
    Straight(env, EPILOGUE_HEAD, x, 66, x1);
    ApartSame(env, x, x1);
    PopsReg(env, x1, EBP);
    y := SetReg(SetReg(x1, ESP, e), EBP, x.native[e - 4]);
    PlainStep(env, Pop(R(EBP)), x1, 69, y);
    ReachesTrans(env, Conf(x, 66), Conf(x1, 69), Conf(y, 70));
  }

  const EPILOGUE_HEAD: seq<Insn> := [Pop(R(EBX)), Pop(R(ESI)), Mov(R(ESP), R(EBP))]

  lemma EpilogueCode(env: Env)
    requires CodeAt(env, 66, EXEC_EPILOGUE)
    ensures CodeAt(env, 66, EPILOGUE_HEAD) && 70 < |env.code| && env.code[69] == Pop(R(EBP)) && env.code[70] == Ret
  {
    hide CodeAt;
    assert EXEC_EPILOGUE == EPILOGUE_HEAD + ([Pop(R(EBP))] + [Ret]);
    CodeParts(env, 66, EPILOGUE_HEAD, [Pop(R(EBP))] + [Ret]);
    CodeParts(env, 69, [Pop(R(EBP))], [Ret]);
    CodeItem(env, 70, [Ret], 0);
    CodeItem(env, 69, [Pop(R(EBP))], 0);
  }

  lemma ErrorsPlaced(env: Env)
    requires CodeAt(env, 71, EXEC_ERRORS)
    ensures CodeAt(env, 71, ErrorExit(AMX_ERR_STACKERR, 71)) && CodeAt(env, 73, ErrorExit(AMX_ERR_HEAPLOW, 73))
    ensures CodeAt(env, 75, ErrorExit(AMX_ERR_STACKLOW, 75)) && CodeAt(env, 77, ErrorExit(AMX_ERR_NOTFOUND, 77))
    ensures CodeAt(env, 79, ErrorExit(AMX_ERR_INDEX, 79))
  {
    hide CodeAt;
    var a, b := ErrorExit(AMX_ERR_STACKERR, 71), ErrorExit(AMX_ERR_HEAPLOW, 73);
    var c, d, e := ErrorExit(AMX_ERR_STACKLOW, 75), ErrorExit(AMX_ERR_NOTFOUND, 77), ErrorExit(AMX_ERR_INDEX, 79);
    CodeParts(env, 71, a, b + (c + (d + e)));
    CodeParts(env, 73, b, c + (d + e));
    CodeParts(env, 75, c, d + e);
    CodeParts(env, 77, d, e);
  }

  lemma ErrorRuns(env: Env, s: State, x: State, code: Word, at: int) returns (y: State)
    requires CodeAt(env, at, ErrorExit(code, at)) && CodeAt(env, 66, EXEC_EPILOGUE) && Inside(env, s, x)
    ensures Reaches(env, Conf(x, at), Conf(y, 70)) && Unwound(s, y) && y == x.(regs := y.regs) && y.regs.eax == code
    ensures 70 < |env.code| && env.code[70] == Ret
  {
    hide Effects, Effect, Reaches, Step, Run, CodeAt, Inside;
    CodeItem(env, at, ErrorExit(code, at), 0);
    CodeItem(env, at, ErrorExit(code, at), 1);
    var x1 := SetReg(x, EAX, code);
    Moves(env, x, EAX, I(code), code);
    assert 0 <= at by { AtStart(env, at, ErrorExit(code, at)); }
    PlainStep(env, Mov(R(EAX), I(code)), x, at, x1);
    JumpStep(env, x1, at + 1, Skip(66 - (at + 2)), 66);
    InsideSame(env, s, x, x1);
    y := EpilogueRuns(env, s, x1);
    ReachesTrans(env, Conf(x, at), Conf(x1, at + 1), Conf(x1, 66));
    ReachesTrans(env, Conf(x, at), Conf(x1, 66), Conf(y, 70));
  }

  lemma AboveTrans(n: map<Word, Word>, m: map<Word, Word>, o: map<Word, Word>, top: int, low: int)
    requires Above(n, m, top) && Above(m, o, low) && low <= top
    ensures Above(n, o, top)
  {
  }

  lemma AboveKept(s: State, n: map<Word, Word>, m: map<Word, Word>)
    requires Kept(s, n) && Above(n, m, s.regs.esp - 32)
    ensures Kept(s, m)
  {
  }

  lemma InsideAbove(env: Env, s: State, x: State, y: State)
    requires Inside(env, s, x) && Above(x.native, y.native, s.regs.esp - 32) && y.data == x.data
    requires y.regs.ebp == x.regs.ebp && y.regs.esp == x.regs.esp && y.regs.esi == x.regs.esi && y.regs.edi == x.regs.edi
    ensures Inside(env, s, y)
  {
    hide Above, Kept, Apart;
    AboveKept(s, x.native, y.native);
    assert y.native.Keys == x.native.Keys by { AboveKeys(x.native, y.native, s.regs.esp - 32); }
    ApartSame(env, x, y);
  }

  lemma AboveKeys(n: map<Word, Word>, m: map<Word, Word>, top: int)
    requires Above(n, m, top)
    ensures n.Keys == m.Keys
  {
  }

  /** GetPublicAddress called for the index in the arguments, and its result tested. */
  lemma ExecPublic(env: Env, s: State, x: State) returns (y: State)
    requires CodeAt(env, 27, EXEC_LOOKUP) && Inside(env, s, x) && x.rib.amx == env.amxPtr
    requires s.regs.esp < M - 4 && s.regs.esp + 4 in s.native
    ensures Inside(env, s, y)
    ensures var p := Public(env, s.native[s.regs.esp + 4]);
            && Reaches(env, Conf(x, 27), Conf(y, if p == 0 then EXEC_INDEX else 35))
            && y == x.(regs := x.regs.(eax := p, ecx := y.regs.ecx, edx := y.regs.edx), fl := y.fl,
                       amx := x.amx.(error := AMX_ERR_NONE), native := y.native)
  {
    hide Effects, Effect, Reaches, Step, Run, CodeAt, Apart;
    LookupPlaced(env);
    var e := s.regs.esp;
    var x1 := PublicRuns(env, x, e, 27);
    assert x.native[e + 4] == s.native[e + 4];
    InsideAbove(env, s, x, x1);
    var p := x1.regs.eax;
    y := x1.(fl := TestFlags(p));
    TestSelf(env, x1, EAX);
    TestAndJump(env, x1, 33, Test(EAX, R(EAX)), E, Skip(EXEC_INDEX - 35), y.fl, EXEC_INDEX);
    InsideSame(env, s, x1, y);
    ReachesTrans(env, Conf(x, 27), Conf(x1, 33), Conf(y, if p == 0 then EXEC_INDEX else 35));
  }

  /** What Exec leaves when it does not call the function. */
  ghost predicate Failed(env: Env, s: State, y: State) {
    && Unwound(s, y) && y.regs.eax == ExecError(env, s) && y.rib == s.rib && y.data == s.data
    && Above(s.native, y.native, s.regs.esp)
    && y.amx == if ExecError(env, s) == AMX_ERR_INDEX then s.amx.(error := AMX_ERR_NONE) else s.amx
  }

  /** A call that fails a check, or that names no public function, returns the error code with
      nothing else changed. */
  lemma ExecFails(env: Env, s: State) returns (y: State)
    requires CodeAt(env, 0, EXEC)
    requires Apart(env, s) && Words(s, s.regs.esp, 104, 12) && s.rib.amx == env.amxPtr && DataPointer(env, s.amx) == env.base
    requires ExecError(env, s) != AMX_ERR_NONE
    ensures Reaches(env, Conf(s, 0), Conf(y, 70)) && Failed(env, s, y)
    ensures y.regs.eax == if Int(s.amx.hea) >= Int(s.amx.stk) then 3
                          else if Int(s.amx.stk) > Int(s.amx.stp) then 7
                          else if Int(s.amx.hea) < Int(s.amx.hlw) then 8
                          else if And(s.amx.flags, 0x1000) == 0 then 19
                          else 20
    ensures 70 < |env.code| && env.code[70] == Ret
  {
    hide Effects, Effect, Reaches, Step, Run, CodeAt, Apart, Words, DataPointer;
    assert s.regs.esp < M - 4 && s.regs.esp + 4 in s.native by { ArgumentThere(s); }
    var x := ExecChecks(env, s);
    ExecPlaced(env);
    ErrorsPlaced(env);
    var exit := CheckExit(s.amx);
    if exit != 27 {
      y := ErrorRuns(env, s, x, ExecError(env, s), exit);
      ReachesTrans(env, Conf(s, 0), Conf(x, exit), Conf(y, 70));
    } else {
      var x1 := ExecPublic(env, s, x);
      ReachesTrans(env, Conf(s, 0), Conf(x, 27), Conf(x1, EXEC_INDEX));
      y := ErrorRuns(env, s, x1, AMX_ERR_INDEX, EXEC_INDEX);
      ReachesTrans(env, Conf(s, 0), Conf(x1, EXEC_INDEX), Conf(y, 70));
    }
  }

  lemma ArgumentThere(s: State)
    requires Words(s, s.regs.esp, 104, 12)
    ensures s.regs.esp < M - 4 && s.regs.esp + 4 in s.native
  {
  }

  // ---- entering the public function ----------------------------------------------------------

  /** The part of the native stack that a suspended Exec needs to return, s being the state at
      its entry: saved registers, the outer reset values, and the outer stack registers. */
  ghost predicate Framed(env: Env, s: State, n: map<Word, Word>) {
    var e := s.regs.esp;
    && Kept(s, n)
    && Stored(n, e - 12, s.rib.resetEbp) && Stored(n, e - 16, s.rib.resetEsp)
    && Stored(n, e - 20, s.rib.resetStk) && Stored(n, e - 24, s.rib.resetHea)
    && Stored(n, e - 40, PtrAt(env, 51)) && Stored(n, e - 44, env.amxPtr) && Stored(n, e - 48, s.regs.edi)
    && Stored(n, e - 52, s.rib.ebp) && Stored(n, e - 56, s.rib.esp)
    && Stored(n, e - 60, s.rib.amxEbp) && Stored(n, e - 64, s.rib.amxEsp)
  }

  /** Compiled code runs under the call of Exec made in state s. */
  ghost predicate Running(env: Env, s: State, y: State) {
    && 104 <= s.regs.esp && Framed(env, s, y.native) && Apart(env, y) && Words(y, s.regs.esp, 104, 12)
    && y.rib.esp == s.regs.esp - 64 && y.rib.ebp == s.regs.esp - 4 && y.rib.amx == env.amxPtr
  }

  ghost predicate LocalsFramed(env: Env, s: State, n: map<Word, Word>) {
    var e := s.regs.esp;
    && Kept(s, n)
    && Stored(n, e - 12, s.rib.resetEbp) && Stored(n, e - 16, s.rib.resetEsp)
    && Stored(n, e - 20, s.rib.resetStk) && Stored(n, e - 24, s.rib.resetHea)
    && Stored(n, e - 40, PtrAt(env, 51))
  }

  lemma LocalsBuilt(env: Env, s: State, x: State, e: int)
    requires e == s.regs.esp && 104 <= e && Words(x, e, 104, 12) && Kept(s, x.native) && x.rib == s.rib && |env.addrs| > 51
    ensures var n := SavedLocals(x, e)[e - 36 := x.native[e - 8]][e - 40 := env.addrs[51]];
            LocalsFramed(env, s, n) && n.Keys == x.native.Keys
  {
  }

  lemma StoredAbove(n: map<Word, Word>, m: map<Word, Word>, top: int)
    requires Above(n, m, top)
    ensures forall a, v :: a >= top && Stored(n, a, v) ==> Stored(m, a, v)
  {
  }

  lemma LocalsKept(env: Env, s: State, n: map<Word, Word>, m: map<Word, Word>)
    requires LocalsFramed(env, s, n) && Above(n, m, s.regs.esp - 40) && 104 <= s.regs.esp
    ensures LocalsFramed(env, s, m)
  {
    hide Stored, Above, PtrAt;
    StoredAbove(n, m, s.regs.esp - 40);
    AboveTrans(s.native, n, m, s.regs.esp, s.regs.esp - 40);
  }

  lemma HelperBuilt(env: Env, x: State, e: int)
    requires 104 <= e && Words(x, e, 104, 12)
    ensures var n := HelperFrame(x, e);
            && Stored(n, e - 44, x.regs.esi) && Stored(n, e - 48, x.regs.edi) && Stored(n, e - 52, x.rib.ebp)
            && Stored(n, e - 56, x.rib.esp) && Stored(n, e - 60, x.rib.amxEbp) && Stored(n, e - 64, x.rib.amxEsp)
            && Above(x.native, n, e - 40)
  {
  }

  lemma FrameBuilt(env: Env, s: State, x: State, e: int)
    requires e == s.regs.esp && 104 <= e && Words(x, e, 104, 12) && LocalsFramed(env, s, x.native)
    requires x.rib == s.rib && x.regs.esi == env.amxPtr && x.regs.edi == s.regs.edi
    ensures Framed(env, s, HelperFrame(x, e)) && HelperFrame(x, e).Keys == x.native.Keys
  {
    hide Stored, Words;
    HelperBuilt(env, x, e);
    LocalsKept(env, s, x.native, HelperFrame(x, e));
  }

  /** From the saving of the reset values to the entry of ExecHelper. */
  lemma ExecSaves(env: Env, s: State, x: State) returns (y: State)
    requires RuntimeAt(env) && Addressed(env) && Inside(env, s, x) && x.rib == s.rib
    ensures Reaches(env, Conf(x, 41), Conf(y, 81)) && LocalsFramed(env, s, y.native)
    ensures Apart(env, y) && Words(y, s.regs.esp, 104, 12) && Same(y.native, s.regs.esp - 36, x.native, s.regs.esp - 8)
    ensures y == x.(regs := x.regs.(eax := x.rib.resetHea, esp := s.regs.esp - 40), native := y.native)
  {
    hide Effects, Effect, Reaches, Step, Run, CodeAt, Apart, RuntimeAt, SavedLocals, Kept, LocalsFramed, Addressed;
    var e := s.regs.esp;
    RuntimeParts(env);
    ExecPlaced(env);
    SavePlaced(env);
    var x1 := x.(regs := x.regs.(eax := x.rib.resetHea), native := SavedLocals(x, e));
    SaveLocals(env, x, e);
    Straight(env, SAVE_CODE, x, 41, x1);
    assert x1.native.Keys == x.native.Keys && x1.native[e - 8] == x.native[e - 8] by { LocalsKeys(x, e); }
    ApartSame(env, x, x1);
    assert |SAVE_CODE| == 8;
    y := CallHelper(env, x1, e, 49);
    LocalsBuilt(env, s, x, e);
    ApartSame(env, x, y);
    ReachesTrans(env, Conf(x, 41), Conf(x1, 49), Conf(y, 81));
  }

  lemma LocalsKeys(x: State, e: int)
    requires Words(x, e, 104, 12) && 104 <= e
    ensures SavedLocals(x, e).Keys == x.native.Keys && SavedLocals(x, e)[e - 8] == x.native[e - 8]
  {
  }

  /** The AMX state in which a public function starts: the size of its parameters and the
      host's return address pushed, the registers as the AMX structure says. */
  function EntryState(cfg: Amx.Cfg, b: AmxBlock, m: Amx.Memory, pri: Word, alt: Word, cip: int): Option<Amx.State> {
    if b.stk < 8 then None
    else
      var m1 :- Amx.StoreCell(cfg, m, b.stk - 4, ParamBytes(b));
      var m2 :- Amx.StoreRet(cfg, m1, b.stk - 8, 0);
      Some(Amx.State(pri, alt, b.frm, b.stk - 8, b.hea, cip, m2))
  }

  /** The function found, its pointer in the first local variable. */
  lemma ExecFinds(env: Env, cfg: Amx.Cfg, s: State) returns (x: State)
    requires RuntimeAt(env) && Addressed(env)
    requires Apart(env, s) && Words(s, s.regs.esp, 104, 12) && s.rib.amx == env.amxPtr && DataPointer(env, s.amx) == env.base
    requires CheckExit(s.amx) == 27 && s.native[s.regs.esp + 4] in env.publics && env.publics[s.native[s.regs.esp + 4]] != 0
    ensures Reaches(env, Conf(s, 0), Conf(x, 41)) && Inside(env, s, x)
    ensures Stored(x.native, s.regs.esp - 8, Lookup(env.table, env.publics[s.native[s.regs.esp + 4]]))
    ensures x.regs.ebx == env.base && x.rib == s.rib && x.data == s.data && x.amx == s.amx.(error := AMX_ERR_NONE)
  {
    hide Effects, Effect, Reaches, Step, Run, CodeAt, Apart, RuntimeAt, Addressed, Lookup, DataPointer, CheckExit;
    RuntimeParts(env);
    ExecPlaced(env);
    LookupPlaced(env);
    var x1 := ExecChecks(env, s);
    var x2 := ExecPublic(env, s, x1);
    ReachesTrans(env, Conf(s, 0), Conf(x1, 27), Conf(x2, 35));
    x := PointerRuns(env, x2, s.regs.esp, 35);
    ReachesTrans(env, Conf(s, 0), Conf(x2, 35), Conf(x, 41));
    PointerInside(env, s, x2, x, x.regs.eax);
  }

  lemma PointerInside(env: Env, s: State, x: State, y: State, p: Word)
    requires Inside(env, s, x) && Above(x.native[s.regs.esp - 8 := p], y.native, s.regs.esp - 32) && y.data == x.data
    requires y.regs.ebp == x.regs.ebp && y.regs.esp == x.regs.esp && y.regs.esi == x.regs.esi && y.regs.edi == x.regs.edi
    ensures Inside(env, s, y) && Stored(y.native, s.regs.esp - 8, p)
  {
    var e := s.regs.esp;
    var z := x.(native := x.native[e - 8 := p]);
    assert Inside(env, s, z) by { ApartSame(env, x, z); }
    InsideAbove(env, s, z, y);
  }

  /** The AMX and x86 states correspond on entry. */
  lemma EntryCore(env: Env, cfg: Amx.Cfg, m: Amx.Memory, x: State, e: int, a: Amx.State)
    requires Consistent(env, cfg) && MemRel(env, cfg, m, x.data) && x.amx.stp == cfg.stp && x.rib.amx == env.amxPtr
    requires 104 <= e < M && e - 36 in x.native && 112 < |env.addrs| && x.regs.ebx == env.base
    requires 0 in env.resumes && env.resumes[0] == 112
    requires a.stk == x.amx.stk - 8 && x.amx.stk <= cfg.size
    requires EntryState(cfg, x.amx, m, x.native[e - 36], Add(Add(x.amx.stk - 4, env.base), M - 4), a.cip) == Some(a)
    ensures Core(env, cfg, a, Entered(env, x, e, 81))
  {
    hide HelperFrame, ParamBytes, MemRel, Store4;
    EntryMemory(env, cfg, m, x, a);
    assert Add(x.amx.frm, env.base) == Add(env.base, x.amx.frm);
  }

  lemma EntryMemory(env: Env, cfg: Amx.Cfg, m: Amx.Memory, x: State, a: Amx.State)
    requires Consistent(env, cfg) && MemRel(env, cfg, m, x.data) && 112 < |env.addrs|
    requires 0 in env.resumes && env.resumes[0] == 112
    requires EntryState(cfg, x.amx, m, a.pri, a.alt, a.cip) == Some(a)
    ensures MemRel(env, cfg, a.mem, Store4(Store4(x.data, x.amx.stk - 4, ParamBytes(x.amx)), x.amx.stk - 8, env.addrs[112]))
  {
    hide MemRel, Store4, ParamBytes;
    var stk, v := x.amx.stk, ParamBytes(x.amx);
    var m1 := Amx.StoreCell(cfg, m, stk - 4, v).value;
    StoreRel(env, cfg, m, x, stk - 4, v);
    ReturnRel(env, cfg, m1, Store4(x.data, stk - 4, v), stk - 8, 0);
  }

  lemma BlockHas(env: Env, cfg: Amx.Cfg, m: Amx.Memory, x: State)
    requires MemRel(env, cfg, m, x.data) && 8 <= x.amx.stk <= cfg.size
    ensures Has4(x.data, x.amx.stk - 4) && Has4(x.data, x.amx.stk - 8)
  {
  }

  /** Exec and ExecHelper up to the call of the function's code. */
  lemma ExecArrives(env: Env, cfg: Amx.Cfg, m: Amx.Memory, s: State, k: int) returns (x: State)
    requires RuntimeAt(env) && Addressed(env) && 0 <= k < |env.addrs|
    requires Sound(env, cfg, m, s) && Words(s, s.regs.esp, 104, 12) && ExecError(env, s) == AMX_ERR_NONE
    requires 8 <= s.amx.stk <= cfg.size && Lookup(env.table, Public(env, s.native[s.regs.esp + 4])) == env.addrs[k]
    ensures LocalsFramed(env, s, x.native) && Apart(env, x) && Words(x, s.regs.esp, 104, 12)
    ensures x.rib == s.rib && x.regs.esi == env.amxPtr && x.regs.edi == s.regs.edi && x.regs.ebp == s.regs.esp - 4 && x.regs.ebx == env.base
    ensures x.data == s.data && x.amx == s.amx.(error := AMX_ERR_NONE)
    ensures 104 <= s.regs.esp && 112 < |env.addrs| && s.regs.esp - 36 in x.native && x.native[s.regs.esp - 36] == env.addrs[k]
    ensures Reaches(env, Conf(s, 0), Conf(Entered(env, x, s.regs.esp, 81), k))
  {
    hide Effects, Effect, Reaches, Step, Run, CodeAt, Apart, RuntimeAt, Addressed, Lookup, MemRel, Entered, LocalsFramed, DataPointer;
    var e := s.regs.esp;
    RuntimeParts(env);
    var x1 := ExecFinds(env, cfg, s);
    x := ExecSaves(env, s, x1);
    ReachesTrans(env, Conf(s, 0), Conf(x1, 41), Conf(x, 81));
    BlockHas(env, cfg, m, x);
    HelperEnters(env, x, e, 81, k);
    ReachesTrans(env, Conf(s, 0), Conf(x, 81), Conf(Entered(env, x, e, 81), k));
  }

  /** A call that passes the checks arrives at the first instruction of the public function:
      the AMX machine is in its entry state, and the native stack and the runtime block hold
      all that is needed to return. */
  lemma ExecEnters(env: Env, cfg: Amx.Cfg, prog: seq<Amx.Instr>, m: Amx.Memory, s: State) returns (y: State, a: Amx.State)
    requires Compiled(env, prog) && RuntimeAt(env) && Consistent(env, cfg)
    requires Sound(env, cfg, m, s) && Words(s, s.regs.esp, 104, 12) && ExecError(env, s) == AMX_ERR_NONE
    requires 8 <= s.amx.stk <= cfg.size && Amx.Find(prog, Public(env, s.native[s.regs.esp + 4])) >= 0
    ensures var cip := Public(env, s.native[s.regs.esp + 4]);
            && cip in env.labels && Reaches(env, Conf(s, 0), Conf(y, env.labels[cip]))
            && Rel(env, cfg, prog, a, Conf(y, env.labels[cip]))
            && EntryState(cfg, s.amx, m, Lookup(env.table, cip), Add(Add(s.amx.stk - 4, env.base), M - 4), cip) == Some(a)
    ensures Running(env, s, y) && y.amx == s.amx.(error := AMX_ERR_NONE, paramCount := 0)
    ensures StartsOn(s.amx, m, a) && SwitchedTo(env, s.amx, y.rib)
  {
    hide Reaches, CodeAt, Apart, RuntimeAt, Addressed, Lookup, Compiled, Core, MemRel, LocalsFramed, Running, PcAt, DataPointer, CheckExit, StartsOn, SwitchedTo;
    var e := s.regs.esp;
    var cip := Public(env, s.native[e + 4]);
    CompiledParts(env, prog);
    RuntimeParts(env);
    var k := TableSays(env, prog, cip);
    var x := ExecArrives(env, cfg, m, s, k);
    BlockHas(env, cfg, m, x);
    y := Entered(env, x, e, 81);
    a := EntryOf(env, cfg, m, x, e, cip);
    EntryCore(env, cfg, m, x, e, a);
    RunningOnEntry(env, s, x, e);
    EntryIs(cfg, s.amx, x.amx, m, a);
    EntryRib(env, s.amx, x, e);
  }

  /** The AMX machine starts on the caller's registers, with the number of bytes of arguments and
      the return address of the host pushed, and memory otherwise as it was. */
  ghost predicate StartsOn(b: AmxBlock, m: Amx.Memory, a: Amx.State) {
    && a.frm == b.frm && a.stk == b.stk - 8 && a.hea == b.hea
    && Amx.LoadCell(a.mem, b.stk - 4) == Some(Wrap(Int(b.paramCount) * 4)) && Amx.LoadRet(a.mem, b.stk - 8) == Some(0)
    && forall o :: !(b.stk - 8 <= o < b.stk) ==> (o in a.mem <==> o in m) && (o in m ==> a.mem[o] == m[o])
  }

  /** The runtime block has both AMX stack pointers, and what a halt goes back to. */
  ghost predicate SwitchedTo(env: Env, b: AmxBlock, rib: RibBlock) {
    && b.stk >= 8
    && rib.amxEbp == Add(env.base, b.frm) && rib.amxEsp == Add(env.base, b.stk - 4)
    && rib.resetEbp == Add(env.base, b.frm) && rib.resetEsp == Add(env.base, b.stk - 8)
    && rib.resetHea == b.hea && rib.resetStk == Add(b.stk, Wrap(Int(b.paramCount) * 4))
  }

  lemma EntryIs(cfg: Amx.Cfg, b: AmxBlock, t: AmxBlock, m: Amx.Memory, a: Amx.State)
    requires b.stk >= 8 && t == b.(error := t.error) && EntryState(cfg, t, m, a.pri, a.alt, a.cip) == Some(a)
    ensures StartsOn(b, m, a)
  {
    hide Amx.StoreCell, Amx.StoreRet, Amx.LoadCell, Amx.LoadRet;
    var m1 := Amx.StoreCell(cfg, m, b.stk - 4, ParamBytes(b)).value;
    CellStored(cfg, m, b.stk - 4, ParamBytes(b));
    RetStored(cfg, m1, b.stk - 8, 0);
    CellKept(m1, a.mem, b.stk - 4);
  }

  lemma CellStored(cfg: Amx.Cfg, m: Amx.Memory, at: int, v: Word)
    requires Amx.StoreCell(cfg, m, at, v).Some?
    ensures var t := Amx.StoreCell(cfg, m, at, v).value;
            && Amx.LoadCell(t, at) == Some(v)
            && forall o :: !(at <= o < at + 4) ==> (o in t <==> o in m) && (o in m ==> t[o] == m[o])
  {
    JoinOfBytes(v);
  }

  lemma RetStored(cfg: Amx.Cfg, m: Amx.Memory, at: int, ret: int)
    requires Amx.StoreRet(cfg, m, at, ret).Some?
    ensures var t := Amx.StoreRet(cfg, m, at, ret).value;
            && Amx.LoadRet(t, at) == Some(ret)
            && forall o :: !(at <= o < at + 4) ==> (o in t <==> o in m) && (o in m ==> t[o] == m[o])
  {
  }

  lemma CellKept(m: Amx.Memory, t: Amx.Memory, at: int)
    requires forall o :: at <= o < at + 4 ==> (o in t <==> o in m) && (o in m ==> t[o] == m[o])
    ensures Amx.LoadCell(t, at) == Amx.LoadCell(m, at)
  {
  }

  lemma EntryRib(env: Env, b: AmxBlock, x: State, e: int)
    requires 104 <= e < M && e - 36 in x.native && 8 <= x.amx.stk && 112 < |env.addrs| && x.amx == b.(error := x.amx.error)
    ensures SwitchedTo(env, b, Entered(env, x, e, 81).rib)
  {
    hide HelperFrame, Store4;
  }

  lemma EntryOf(env: Env, cfg: Amx.Cfg, m: Amx.Memory, x: State, e: int, cip: int) returns (a: Amx.State)
    requires 104 <= e < M && e - 36 in x.native && 8 <= x.amx.stk <= cfg.size
    ensures EntryState(cfg, x.amx, m, x.native[e - 36], Add(Add(x.amx.stk - 4, env.base), M - 4), cip) == Some(a)
    ensures a.cip == cip && a.stk == x.amx.stk - 8 && a.pri == x.native[e - 36] && a.alt == Add(Add(x.amx.stk - 4, env.base), M - 4)
  {
    a := EntryState(cfg, x.amx, m, x.native[e - 36], Add(Add(x.amx.stk - 4, env.base), M - 4), cip).value;
  }

  lemma CompiledParts(env: Env, prog: seq<Amx.Instr>)
    requires Compiled(env, prog)
    ensures Addressed(env) && 0 in env.resumes && ExecReturn in env.helpers && env.resumes[0] == env.helpers[ExecReturn]
  {
  }

  lemma RunningOnEntry(env: Env, s: State, x: State, e: int)
    requires e == s.regs.esp && 104 <= e && Words(x, e, 104, 12) && LocalsFramed(env, s, x.native) && Apart(env, x)
    requires x.rib == s.rib && x.rib.amx == env.amxPtr && x.regs.esi == env.amxPtr && x.regs.edi == s.regs.edi && x.regs.ebp == e - 4
    requires 8 <= x.amx.stk && 112 < |env.addrs| && Has4(x.data, x.amx.stk - 4) && Has4(x.data, x.amx.stk - 8)
    ensures Running(env, s, Entered(env, x, e, 81))
  {
    hide HelperFrame, LocalsFramed, Framed, ParamBytes, Apart;
    FrameBuilt(env, s, x, e);
    var y := Entered(env, x, e, 81);
    DataKeys(x.data, x.amx.stk - 4, ParamBytes(x.amx), x.amx.stk - 8, env.addrs[112]);
    ApartKeys(env, x, y);
  }

  lemma DataKeys(d: Data, o: int, v: Word, p: int, w: Word)
    requires Has4(d, o) && Has4(d, p)
    ensures Store4(Store4(d, o, v), p, w).Keys == d.Keys
  {
  }

  lemma ApartKeys(env: Env, x: State, y: State)
    requires Apart(env, x) && y.data.Keys == x.data.Keys && y.native.Keys == x.native.Keys
    ensures Apart(env, y)
  {
    forall a | a in y.native
      ensures !Has4(y.data, Sub(a, env.base))
    {
      var o: int := Sub(a, env.base);
      assert Has4(y.data, o) <==> (o in y.data.Keys && o + 1 in y.data.Keys && o + 2 in y.data.Keys && o + 3 in y.data.Keys);
      assert !Has4(x.data, o);
    }
  }
}
