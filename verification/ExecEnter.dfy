/** From the entry of Exec to the first instruction of the public function. */
module ExecEnter {
  import opened Word32
  import opened X86
  import Amx
  import opened Emit
  import opened Runtime
  import opened Relation
  import opened Insns
  import SimAcc
  import opened Layout
  import opened SimControl
  import opened SimIndirect

  // ---- the prologue of Exec ------------------------------------------------------------

  /** The native stack behind the prologue: saved ebp, five local variables, saved esi and
      ebx. */
  function Prologued(env: Env, x: State): State
    requires x.regs.esp >= 32
  {
    var e := x.regs.esp;
    x.(regs := x.regs.(ebp := e - 4, esp := e - 32, esi := x.rib.amx, ebx := x.amx.data), fl := NoFlags,
       native := x.native[e - 4 := x.regs.ebp][e - 28 := x.regs.esi][e - 32 := x.regs.ebx])
  }

  lemma PrologueHead(env: Env, x: State)
    requires Apart(env, x) && Words(x, x.regs.esp, 104, 12)
    ensures var e := x.regs.esp;
            Effects(env, [Push(R(EBP)), Mov(R(EBP), R(ESP)), Alu(SubOp, R(ESP), I(20)), Push(R(ESI))], x)
            == Some(x.(regs := x.regs.(ebp := e - 4, esp := e - 28), fl := NoFlags,
                       native := x.native[e - 4 := x.regs.ebp][e - 28 := x.regs.esi]))
  {
    hide Effect, Effects, Apart;
    var e := x.regs.esp;
    var x1 := x.(regs := x.regs.(esp := e - 4), native := x.native[e - 4 := x.regs.ebp]);
    Pushes(env, x, R(EBP), x.regs.ebp);
    var x2 := SetReg(x1, EBP, e - 4);
    MovesReg(env, x1, EBP, ESP);
    var x3 := SetReg(Undef(x2), ESP, e - 24);
    Computes(env, x2, SubOp, ESP, I(20), 20);
    var x4 := x3.(regs := x3.regs.(esp := e - 28), native := x3.native[e - 28 := x.regs.esi]);
    ApartSame(env, x, x3);
    Pushes(env, x3, R(ESI), x.regs.esi);
    Four(env, Push(R(EBP)), Mov(R(EBP), R(ESP)), Alu(SubOp, R(ESP), I(20)), Push(R(ESI)), x, x1, x2, x3, x4);
  }

  lemma PrologueTail(env: Env, x: State, e: int)
    requires Apart(env, x) && e - 28 == x.regs.esp && e >= 32 && e - 32 in x.native && x.rib.amx == env.amxPtr
    ensures Effects(env, [Mov(R(ESI), Mm(Rib(RibAmx))), Push(R(EBX)), Mov(R(EBX), Mm(Amx(ESI, AData)))], x)
            == Some(x.(regs := x.regs.(esp := e - 32, esi := x.rib.amx, ebx := x.amx.data), native := x.native[e - 32 := x.regs.ebx]))
  {
    hide Effect, Effects, Apart;
    var x5 := SetReg(x, ESI, x.rib.amx);
    MovesRib(env, x, ESI, RibAmx);
    ApartSame(env, x, x5);
    var x6 := x5.(regs := x5.regs.(esp := e - 32), native := x5.native[e - 32 := x.regs.ebx]);
    Pushes(env, x5, R(EBX), x.regs.ebx);
    MovesAmx(env, x6, EBX, ESI, AData);
    Three(env, Mov(R(ESI), Mm(Rib(RibAmx))), Push(R(EBX)), Mov(R(EBX), Mm(Amx(ESI, AData))), x, x5, x6, SetReg(x6, EBX, x.amx.data));
  }

  lemma Prologue(env: Env, x: State)
    requires Apart(env, x) && Words(x, x.regs.esp, 104, 12) && x.rib.amx == env.amxPtr
    ensures Effects(env, EXEC_PROLOGUE, x) == Some(Prologued(env, x))
  {
    hide Effect, Effects, Apart;
    var e := x.regs.esp;
    PrologueHead(env, x);
    var y := x.(regs := x.regs.(ebp := e - 4, esp := e - 28), fl := NoFlags,
                native := x.native[e - 4 := x.regs.ebp][e - 28 := x.regs.esi]);
    ApartSame(env, x, y);
    PrologueTail(env, y, e);
    var c := [Push(R(EBP)), Mov(R(EBP), R(ESP)), Alu(SubOp, R(ESP), I(20)), Push(R(ESI))];
    var d := [Mov(R(ESI), Mm(Rib(RibAmx))), Push(R(EBX)), Mov(R(EBX), Mm(Amx(ESI, AData)))];
    assert EXEC_PROLOGUE == c + d;
    SeqJoin(env, c, d, x, y, Prologued(env, x));
  }

  // ---- the data pointer and the checks ---------------------------------------------------

  /** Where the data block lies: amx->data, or behind the header. */
  function DataPointer(env: Env, b: AmxBlock): Word {
    if b.data != 0 then b.data else Add(b.base, env.dat)
  }

  lemma DataLoads(env: Env, x: State)
    requires x.regs.esi == env.amxPtr
    ensures Effects(env, [Mov(R(EBX), Mm(Amx(ESI, ABase))), Mov(R(EAX), Mm(Hdr(EBX, HDat))), Alu(AddOp, R(EBX), R(EAX))], x)
         == Some(Undef(x).(regs := x.regs.(ebx := Add(x.amx.base, env.dat), eax := env.dat)))
  {
    hide Effect, Effects;
    var x1 := SetReg(x, EBX, x.amx.base);
    MovesAmx(env, x, EBX, ESI, ABase);
    var x2 := SetReg(x1, EAX, env.dat);
    Moves(env, x1, EAX, Mm(Hdr(EBX, HDat)), env.dat);
    Computes(env, x2, AddOp, EBX, R(EAX), env.dat);
    Three(env, Mov(R(EBX), Mm(Amx(ESI, ABase))), Mov(R(EAX), Mm(Hdr(EBX, HDat))), Alu(AddOp, R(EBX), R(EAX)), x, x1, x2,
          Undef(x).(regs := x.regs.(ebx := Add(x.amx.base, env.dat), eax := env.dat)));
  }

  /** ebx gets the data pointer; eax and the flags are scratch. */
  lemma DataRuns(env: Env, x: State, at: int) returns (y: State)
    requires CodeAt(env, at, EXEC_DATA) && x.regs.esi == env.amxPtr && x.regs.ebx == x.amx.data
    ensures Reaches(env, Conf(x, at), Conf(y, at + 5))
    ensures y == x.(regs := x.regs.(ebx := DataPointer(env, x.amx), eax := y.regs.eax), fl := y.fl)
  {
    hide Effect, Effects, Reaches, Step, Run;
    var c := [Test(EBX, R(EBX)), Jcc(NE, Skip(3))];
    var d := [Mov(R(EBX), Mm(Amx(ESI, ABase))), Mov(R(EAX), Mm(Hdr(EBX, HDat))), Alu(AddOp, R(EBX), R(EAX))];
    assert EXEC_DATA == c + d;
    CodeParts(env, at, c, d);
    var x1 := x.(fl := TestFlags(x.regs.ebx));
    TestSelf(env, x, EBX);
    TestAndJump(env, x, at, Test(EBX, R(EBX)), NE, Skip(3), x1.fl, at + 5);
    if x.amx.data != 0 {
      y := x1;
    } else {
      DataLoads(env, x1);
      y := Undef(x1).(regs := x1.regs.(ebx := Add(x.amx.base, env.dat), eax := env.dat));
      Straight(env, d, x1, at + 2, y);
      ReachesTrans(env, Conf(x, at), Conf(x1, at + 2), Conf(y, at + 5));
    }
  }

  lemma TestSelf(env: Env, x: State, r: Reg)
    ensures Effect(env, Test(r, R(r)), x) == Some(x.(fl := TestFlags(Get(x.regs, r))))
  {
    BitsSelf(Get(x.regs, r));
  }

  /** One check: leaves for the exit when the signed comparison of the two fields holds. */
  lemma CheckRuns(env: Env, x: State, at: int, f: AmxField, g: AmxField, r: Amx.Rel, n: int, exit: int) returns (y: State)
    requires CodeAt(env, at + n, Check(f, g, CondOf(r), n, exit)) && x.regs.esi == env.amxPtr
    ensures y == x.(regs := x.regs.(ecx := y.regs.ecx, edx := y.regs.edx), fl := y.fl)
    ensures Reaches(env, Conf(x, at + n),
              Conf(y, if Amx.Related(r, GetAmx(x.amx, f), GetAmx(x.amx, g)) then at + exit else at + n + 4))
  {
    hide Effect, Effects, Reaches, Step, Run, Amx.Related, CondOf, GetAmx;
    var c := [Mov(R(ECX), Mm(Amx(ESI, f))), Mov(R(EDX), Mm(Amx(ESI, g)))];
    var t := Skip(exit - (n + 4));
    var d := [Cmp(ECX, R(EDX)), Jcc(CondOf(r), t)];
    assert Check(f, g, CondOf(r), n, exit) == c + d;
    CodeParts(env, at + n, c, d);
    var a, b := GetAmx(x.amx, f), GetAmx(x.amx, g);
    var x1 := SetReg(x, ECX, a);
    MovesAmx(env, x, ECX, ESI, f);
    var x2 := SetReg(x1, EDX, b);
    MovesAmx(env, x1, EDX, ESI, g);
    Two(env, c[0], c[1], x, x1, x2);
    Straight(env, c, x, at + n, x2);
    var fl := CmpFlags(a, b, M);
    y := x2.(fl := fl);
    Compares(env, x2, ECX, EDX);
    SimAcc.CondDecides(r, a, b);
    TestAndJump(env, x2, at + n + 2, Cmp(ECX, R(EDX)), CondOf(r), t, fl, at + exit);
    ReachesTrans(env, Conf(x, at + n), Conf(x2, at + n + 2), Conf(y, if Holds(CondOf(r), fl) then at + exit else at + n + 4));
  }

  lemma Compares(env: Env, x: State, r: Reg, s: Reg)
    ensures Effect(env, Cmp(r, R(s)), x) == Some(x.(fl := CmpFlags(Get(x.regs, r), Get(x.regs, s), M)))
  {
  }

  /** The exit that the checks in front of the call of GetPublicAddress take, or 27, where
      that call is set up. */
  function CheckExit(b: AmxBlock): int {
    if Int(b.hea) >= Int(b.stk) then EXEC_STACKERR
    else if Int(b.stk) > Int(b.stp) then EXEC_STACKLOW
    else if Int(b.hea) < Int(b.hlw) then EXEC_HEAPLOW
    else if And(b.flags, AMX_FLAG_NTVREG) == 0 then EXEC_NOTFOUND
    else 27
  }

  lemma FlagsRun(env: Env, x: State, at: int) returns (y: State)
    requires CodeAt(env, at + 24, [Mov(R(ECX), Mm(Amx(ESI, AFlags))), Test(ECX, I(AMX_FLAG_NTVREG)), Jcc(E, Skip(EXEC_NOTFOUND - 27))])
    requires x.regs.esi == env.amxPtr
    ensures y == x.(regs := x.regs.(ecx := y.regs.ecx), fl := y.fl)
    ensures Reaches(env, Conf(x, at + 24), Conf(y, at + if And(x.amx.flags, AMX_FLAG_NTVREG) == 0 then EXEC_NOTFOUND else 27))
  {
    hide Effect, Effects, Reaches, Step, Run, And;
    var c, d := [Mov(R(ECX), Mm(Amx(ESI, AFlags)))], [Test(ECX, I(AMX_FLAG_NTVREG)), Jcc(E, Skip(EXEC_NOTFOUND - 27))];
    assert [Mov(R(ECX), Mm(Amx(ESI, AFlags))), Test(ECX, I(AMX_FLAG_NTVREG)), Jcc(E, Skip(EXEC_NOTFOUND - 27))] == c + d;
    CodeParts(env, at + 24, c, d);
    var x1 := SetReg(x, ECX, x.amx.flags);
    MovesAmx(env, x, ECX, ESI, AFlags);
    Seq1(env, c[0], x);
    Straight(env, c, x, at + 24, x1);
    y := x1.(fl := TestFlags(And(x.amx.flags, AMX_FLAG_NTVREG)));
    Tests(env, x1, ECX, AMX_FLAG_NTVREG);
    TestAndJump(env, x1, at + 25, Test(ECX, I(AMX_FLAG_NTVREG)), E, Skip(EXEC_NOTFOUND - 27), y.fl, at + EXEC_NOTFOUND);
    ReachesTrans(env, Conf(x, at + 24), Conf(x1, at + 25), Conf(y, at + if And(x.amx.flags, AMX_FLAG_NTVREG) == 0 then EXEC_NOTFOUND else 27));
  }

  lemma Tests(env: Env, x: State, r: Reg, v: Word)
    ensures Effect(env, Test(r, I(v)), x) == Some(x.(fl := TestFlags(And(Get(x.regs, r), v))))
  {
  }

  lemma ChecksPlaced(env: Env, at: int)
    requires CodeAt(env, at + 12, EXEC_CHECKS)
    ensures CodeAt(env, at + 12, Check(AHea, AStk, GE, 12, EXEC_STACKERR)) && CodeAt(env, at + 16, Check(AStk, AStp, G, 16, EXEC_STACKLOW))
    ensures CodeAt(env, at + 20, Check(AHea, AHlw, L, 20, EXEC_HEAPLOW))
    ensures CodeAt(env, at + 24, [Mov(R(ECX), Mm(Amx(ESI, AFlags))), Test(ECX, I(AMX_FLAG_NTVREG)), Jcc(E, Skip(EXEC_NOTFOUND - 27))])
  {
    hide CodeAt;
    var a, b, c := Check(AHea, AStk, GE, 12, EXEC_STACKERR), Check(AStk, AStp, G, 16, EXEC_STACKLOW), Check(AHea, AHlw, L, 20, EXEC_HEAPLOW);
    var d := [Mov(R(ECX), Mm(Amx(ESI, AFlags))), Test(ECX, I(AMX_FLAG_NTVREG)), Jcc(E, Skip(EXEC_NOTFOUND - 27))];
    CodeParts(env, at + 12, a, b + (c + d));
    CodeParts(env, at + 16, b, c + d);
    CodeParts(env, at + 20, c, d);
  }

  lemma AllChecks(env: Env, x: State, at: int) returns (y: State)
    requires CodeAt(env, at + 12, EXEC_CHECKS) && x.regs.esi == env.amxPtr
    ensures y == x.(regs := x.regs.(ecx := y.regs.ecx, edx := y.regs.edx), fl := y.fl)
    ensures Reaches(env, Conf(x, at + 12), Conf(y, at + CheckExit(x.amx)))
  {
    hide Reaches, CodeAt, And, Check;
    ChecksPlaced(env, at);
    y := CheckRuns(env, x, at, AHea, AStk, Amx.SGeq, 12, EXEC_STACKERR);
    if Int(x.amx.hea) < Int(x.amx.stk) {
      var y1 := y;
      y := CheckRuns(env, y1, at, AStk, AStp, Amx.SGrtr, 16, EXEC_STACKLOW);
      ReachesTrans(env, Conf(x, at + 12), Conf(y1, at + 16), Conf(y, at + if Int(x.amx.stk) > Int(x.amx.stp) then EXEC_STACKLOW else 20));
      if Int(x.amx.stk) <= Int(x.amx.stp) {
        y := LastChecks(env, x, y, at);
      }
    }
  }

  lemma LastChecks(env: Env, x: State, y0: State, at: int) returns (y: State)
    requires y0 == x.(regs := x.regs.(ecx := y0.regs.ecx, edx := y0.regs.edx), fl := y0.fl) && x.regs.esi == env.amxPtr
    requires CodeAt(env, at + 20, Check(AHea, AHlw, L, 20, EXEC_HEAPLOW))
    requires CodeAt(env, at + 24, [Mov(R(ECX), Mm(Amx(ESI, AFlags))), Test(ECX, I(AMX_FLAG_NTVREG)), Jcc(E, Skip(EXEC_NOTFOUND - 27))])
    requires Reaches(env, Conf(x, at + 12), Conf(y0, at + 20))
    requires Int(x.amx.hea) < Int(x.amx.stk) <= Int(x.amx.stp)
    ensures y == x.(regs := x.regs.(ecx := y.regs.ecx, edx := y.regs.edx), fl := y.fl)
    ensures Reaches(env, Conf(x, at + 12), Conf(y, at + CheckExit(x.amx)))
  {
    hide Reaches, CodeAt, And, Check;
    y := CheckRuns(env, y0, at, AHea, AHlw, Amx.SLess, 20, EXEC_HEAPLOW);
    ReachesTrans(env, Conf(x, at + 12), Conf(y0, at + 20), Conf(y, at + if Int(x.amx.hea) < Int(x.amx.hlw) then EXEC_HEAPLOW else 24));
    if Int(x.amx.hea) >= Int(x.amx.hlw) {
      var y1 := y;
      y := FlagsRun(env, y1, at);
      ReachesTrans(env, Conf(x, at + 12), Conf(y1, at + 24), Conf(y, at + CheckExit(x.amx)));
    }
  }

  // ---- finding the function ----------------------------------------------------------------

  /** m has the words of n, and from top on the same content. */
  ghost predicate Above(n: map<Word, Word>, m: map<Word, Word>, top: int) {
    && n.Keys == m.Keys
    && forall k :: k in n && k >= top ==> m[k] == n[k]
  }

  function Public(env: Env, index: Word): Word { if index in env.publics then env.publics[index] else 0 }

  lemma PublicArgs(env: Env, x: State, e: int)
    requires Apart(env, x) && Words(x, e, 104, 12) && x.regs.ebp == e - 4 && x.regs.esp == e - 32
    requires x.regs.esi == env.amxPtr && x.rib.amx == env.amxPtr
    ensures Effects(env, [Mov(Mm(Amx(ESI, AError)), I(AMX_ERR_NONE)), Push(Local(8)), Mov(R(EAX), Mm(Rib(RibAmx))), Push(R(EAX))], x)
         == Some(x.(regs := x.regs.(eax := env.amxPtr, esp := e - 40), amx := x.amx.(error := AMX_ERR_NONE),
                    native := x.native[e - 36 := x.native[e + 4]][e - 40 := env.amxPtr]))
  {
    hide Effect, Effects, Apart;
    var x1 := x.(amx := x.amx.(error := AMX_ERR_NONE));
    StoresAmx(env, x, ESI, AError, I(AMX_ERR_NONE), AMX_ERR_NONE);
    ApartSame(env, x, x1);
    ReadsNative(env, x1, EBP, 8, e + 4);
    var x2 := x1.(regs := x1.regs.(esp := e - 36), native := x1.native[e - 36 := x.native[e + 4]]);
    Pushes(env, x1, Local(8), x.native[e + 4]);
    var x3 := SetReg(x2, EAX, env.amxPtr);
    MovesRib(env, x2, EAX, RibAmx);
    ApartSame(env, x, x3);
    var x4 := x3.(regs := x3.regs.(esp := e - 40), native := x3.native[e - 40 := env.amxPtr]);
    Pushes(env, x3, R(EAX), env.amxPtr);
    Four(env, Mov(Mm(Amx(ESI, AError)), I(AMX_ERR_NONE)), Push(Local(8)), Mov(R(EAX), Mm(Rib(RibAmx))), Push(R(EAX)), x, x1, x2, x3, x4);
  }

  lemma CalledNative(env: Env, x: State, result: Word)
    requires Apart(env, x) && x.regs.esp in x.native
    ensures Called(env, x, result)
         == x.(regs := x.regs.(eax := result, ecx := env.junk(x).ecx, edx := env.junk(x).edx), fl := NoFlags,
               native := Below(x.native, x.regs.esp + 8, env.junk(x).native))
  {
  }

  lemma PublicCall(env: Env, x: State)
    requires Apart(env, x) && x.regs.esp < M - 8 && x.regs.esp in x.native && x.regs.esp + 4 in x.native && x.native[x.regs.esp] == env.amxPtr
    ensures Effects(env, [CallGetPublicAddress, Alu(AddOp, R(ESP), I(8))], x)
         == Some(x.(regs := x.regs.(eax := Public(env, x.native[x.regs.esp + 4]), ecx := env.junk(x).ecx, edx := env.junk(x).edx, esp := x.regs.esp + 8),
                    fl := NoFlags, native := Below(x.native, x.regs.esp + 8, env.junk(x).native)))
  {
    hide Effect, Effects, Below;
    var v := x.native[x.regs.esp + 4];
    var x1 := Called(env, x, Public(env, v));
    CalledNative(env, x, Public(env, v));
    assert Effect(env, CallGetPublicAddress, x) == Some(x1) by { PublicEffect(env, x); }
    Computes(env, x1, AddOp, ESP, I(8), 8);
    Two(env, CallGetPublicAddress, Alu(AddOp, R(ESP), I(8)), x, x1, SetReg(Undef(x1), ESP, x.regs.esp + 8));
  }

  lemma PublicEffect(env: Env, x: State)
    requires Apart(env, x) && x.regs.esp < M - 8 && x.regs.esp in x.native && x.regs.esp + 4 in x.native && x.native[x.regs.esp] == env.amxPtr
    ensures Effect(env, CallGetPublicAddress, x) == Some(Called(env, x, Public(env, x.native[x.regs.esp + 4])))
  {
    hide Called, Load4;
  }

  lemma LookupCall(env: Env, x: State)
    requires Apart(env, x) && x.regs.esp < M - 8 && x.regs.esp in x.native && x.regs.esp + 4 in x.native && x.native[x.regs.esp + 4] == env.ribPtr
    ensures Effects(env, [CallGetJITInstrPtr, Alu(AddOp, R(ESP), I(8))], x)
         == Some(x.(regs := x.regs.(eax := Lookup(env.table, x.native[x.regs.esp]), ecx := env.junk(x).ecx, edx := env.junk(x).edx, esp := x.regs.esp + 8),
                    fl := NoFlags, native := Below(x.native, x.regs.esp + 8, env.junk(x).native)))
  {
    hide Effect, Effects, Below, Lookup;
    var v := x.native[x.regs.esp];
    var x1 := Called(env, x, Lookup(env.table, v));
    CalledNative(env, x, Lookup(env.table, v));
    assert Effect(env, CallGetJITInstrPtr, x) == Some(x1) by { LookupEffect(env, x); }
    Computes(env, x1, AddOp, ESP, I(8), 8);
    Two(env, CallGetJITInstrPtr, Alu(AddOp, R(ESP), I(8)), x, x1, SetReg(Undef(x1), ESP, x.regs.esp + 8));
  }

  lemma LookupEffect(env: Env, x: State)
    requires Apart(env, x) && x.regs.esp < M - 8 && x.regs.esp in x.native && x.regs.esp + 4 in x.native && x.native[x.regs.esp + 4] == env.ribPtr
    ensures Effect(env, CallGetJITInstrPtr, x) == Some(Called(env, x, Lookup(env.table, x.native[x.regs.esp])))
  {
    hide Called, Lookup, Load4;
  }

  lemma BelowAbove(n: map<Word, Word>, a: Word, v: Word, b: Word, w: Word, top: int, junk: Word -> Word)
    requires a in n && b in n && a < top && b < top
    ensures Above(n, Below(n[a := v][b := w], top, junk), top)
  {
  }

  /** From the end of the checks to behind the call of GetPublicAddress. */
  lemma PublicRuns(env: Env, x: State, e: int, at: int) returns (y: State)
    requires CodeAt(env, at, PUBLIC_CODE)
    requires Apart(env, x) && Words(x, e, 104, 12) && x.regs.ebp == e - 4 && x.regs.esp == e - 32
    requires x.regs.esi == env.amxPtr && x.rib.amx == env.amxPtr
    ensures Reaches(env, Conf(x, at), Conf(y, at + 6)) && Above(x.native, y.native, e - 32)
    ensures y == x.(regs := x.regs.(eax := Public(env, x.native[e + 4]), ecx := y.regs.ecx, edx := y.regs.edx), fl := NoFlags,
                    amx := x.amx.(error := AMX_ERR_NONE), native := y.native)
  {
    hide Effect, Effects, Reaches, Step, Run, Apart, Below, CodeAt;
    var c := [Mov(Mm(Amx(ESI, AError)), I(AMX_ERR_NONE)), Push(Local(8)), Mov(R(EAX), Mm(Rib(RibAmx))), Push(R(EAX))];
    var d := [CallGetPublicAddress, Alu(AddOp, R(ESP), I(8))];
    assert PUBLIC_CODE == c + d;
    var x1 := x.(regs := x.regs.(eax := env.amxPtr, esp := e - 40), amx := x.amx.(error := AMX_ERR_NONE),
                 native := x.native[e - 36 := x.native[e + 4]][e - 40 := env.amxPtr]);
    PublicArgs(env, x, e);
    ApartSame(env, x, x1);
    PublicCall(env, x1);
    y := x1.(regs := x1.regs.(eax := Public(env, x.native[e + 4]), ecx := env.junk(x1).ecx, edx := env.junk(x1).edx, esp := e - 32), fl := NoFlags,
             native := Below(x1.native, e - 32, env.junk(x1).native));
    SeqJoin(env, c, d, x, x1, y);
    Straight(env, PUBLIC_CODE, x, at, y);
    BelowAbove(x.native, e - 36, x.native[e + 4], e - 40, env.amxPtr, e - 32, env.junk(x1).native);
  }

  const PUBLIC_CODE: seq<Insn> :=
    [Mov(Mm(Amx(ESI, AError)), I(AMX_ERR_NONE)), Push(Local(8)), Mov(R(EAX), Mm(Rib(RibAmx))), Push(R(EAX)),
     CallGetPublicAddress, Alu(AddOp, R(ESP), I(8))]

  const POINTER_CODE: seq<Insn> :=
    [Mov(R(ECX), RibStart), Push(R(ECX)), Push(R(EAX)), CallGetJITInstrPtr, Alu(AddOp, R(ESP), I(8)), Mov(Local(-4), R(EAX))]

  lemma PointerArgs(env: Env, x: State, e: int)
    requires Apart(env, x) && Words(x, e, 104, 12) && x.regs.esp == e - 32
    ensures Effects(env, [Mov(R(ECX), RibStart), Push(R(ECX)), Push(R(EAX))], x)
         == Some(x.(regs := x.regs.(ecx := env.ribPtr, esp := e - 40), native := x.native[e - 36 := env.ribPtr][e - 40 := x.regs.eax]))
  {
    hide Effect, Effects, Apart;
    var x1 := SetReg(x, ECX, env.ribPtr);
    Moves(env, x, ECX, RibStart, env.ribPtr);
    ApartSame(env, x, x1);
    var x2 := x1.(regs := x1.regs.(esp := e - 36), native := x1.native[e - 36 := env.ribPtr]);
    Pushes(env, x1, R(ECX), env.ribPtr);
    ApartSame(env, x, x2);
    var x3 := x2.(regs := x2.regs.(esp := e - 40), native := x2.native[e - 40 := x.regs.eax]);
    Pushes(env, x2, R(EAX), x.regs.eax);
    Three(env, Mov(R(ECX), RibStart), Push(R(ECX)), Push(R(EAX)), x, x1, x2, x3);
  }

  lemma PointerStore(env: Env, x: State, e: int)
    requires Apart(env, x) && Words(x, e, 104, 12) && x.regs.ebp == e - 4
    ensures Effects(env, [Mov(Local(-4), R(EAX))], x) == Some(x.(native := x.native[e - 8 := x.regs.eax]))
  {
    hide Effect, Effects;
    WritesNative(env, x, EBP, M - 4, e - 8, EAX);
    Seq1(env, Mov(Local(-4), R(EAX)), x);
  }

  /** The native address of the function goes to the first local variable. */
  lemma PointerRuns(env: Env, x: State, e: int, at: int) returns (y: State)
    requires CodeAt(env, at, POINTER_CODE)
    requires Apart(env, x) && Words(x, e, 104, 12) && x.regs.ebp == e - 4 && x.regs.esp == e - 32
    ensures Reaches(env, Conf(x, at), Conf(y, at + 6))
    ensures var p := Lookup(env.table, x.regs.eax);
            && Above(x.native[e - 8 := p], y.native, e - 32)
            && y == x.(regs := x.regs.(eax := p, ecx := y.regs.ecx, edx := y.regs.edx), fl := NoFlags, native := y.native)
  {
    hide Effect, Effects, Reaches, Step, Run, Apart, Below, CodeAt, Lookup;
    var c, d, f := [Mov(R(ECX), RibStart), Push(R(ECX)), Push(R(EAX))], [CallGetJITInstrPtr, Alu(AddOp, R(ESP), I(8))], [Mov(Local(-4), R(EAX))];
    assert POINTER_CODE == c + (d + f);
    var p := Lookup(env.table, x.regs.eax);
    var x1 := x.(regs := x.regs.(ecx := env.ribPtr, esp := e - 40), native := x.native[e - 36 := env.ribPtr][e - 40 := x.regs.eax]);
    PointerArgs(env, x, e);
    ApartSame(env, x, x1);
    LookupCall(env, x1);
    var x2 := x1.(regs := x1.regs.(eax := p, ecx := env.junk(x1).ecx, edx := env.junk(x1).edx, esp := e - 32), fl := NoFlags,
                  native := Below(x1.native, e - 32, env.junk(x1).native));
    BelowAbove(x.native, e - 36, env.ribPtr, e - 40, x.regs.eax, e - 32, env.junk(x1).native);
    ApartSame(env, x, x2);
    PointerStore(env, x2, e);
    y := x2.(native := x2.native[e - 8 := p]);
    SeqJoin(env, d, f, x1, x2, y);
    SeqJoin(env, c, d + f, x, x1, y);
    Straight(env, POINTER_CODE, x, at, y);
  }
}
