/** Calls and returns: the AMX stack holds native return addresses where the machine has AMX
    ones, and popping one resumes at the instruction the machine resumes at. */
module SimCalls {
  import opened Word32
  import opened X86
  import Amx
  import opened Emit
  import opened Relation
  import opened Layout
  import opened SimControl
  import opened SimStack
  import SimMem

  // ---- CALL ------------------------------------------------------------------

  /** Pushing the native address of a known return address. */
  lemma ReturnRel(env: Env, cfg: Amx.Cfg, m: Amx.Memory, d: Data, at: int, ret: int)
    requires MemRel(env, cfg, m, d) && Amx.StoreRet(cfg, m, at, ret).Some?
    requires ret in env.resumes && 0 <= env.resumes[ret] < |env.addrs|
    ensures MemRel(env, cfg, Amx.StoreRet(cfg, m, at, ret).value, Store4(d, at, env.addrs[env.resumes[ret]]))
  {
  }

  /** call pushes p and goes to k. */
  lemma CallStep(env: Env, cfg: Amx.Cfg, a: Amx.State, x: State, at: int, t: Target, k: int)
    requires Consistent(env, cfg) && Core(env, cfg, a, x)
    requires 0 <= at < |env.code| && env.code[at] == Call(t) && Resolve(env, at, t) == Some(k)
    requires |env.addrs| == |env.code| + 1 && Has4(x.data, Sub(a.stk, 4))
    ensures Reaches(env, Conf(x, at), Conf(Pushed(x, Sub(a.stk, 4), env.addrs[at + 1]), k))
  {
    var sp := Sub(a.stk, 4);
    StackAddress(env.base, a.stk);
    var y := Pushed(x, sp, env.addrs[at + 1]);
    assert PushWord(env, x, env.addrs[at + 1]) == Some(y);
    assert Step(env, Conf(x, at)) == DoCall(env, Conf(x, at), k);
    ReachesStep(env, Conf(x, at), Conf(y, k));
  }

  lemma CoreCall(env: Env, cfg: Amx.Cfg, a: Amx.State, x: State, ret: int, p: Word, m: Amx.Memory)
    requires Consistent(env, cfg) && Core(env, cfg, a, x)
    requires Amx.StoreRet(cfg, a.mem, Sub(a.stk, 4), ret) == Some(m)
    requires ret in env.resumes && 0 <= env.resumes[ret] < |env.addrs| && p == env.addrs[env.resumes[ret]]
    ensures var y := Pushed(x, Sub(a.stk, 4), p);
            Core(env, cfg, a.(stk := Sub(a.stk, 4), mem := m), y) && Frame(x, y)
  {
    ReturnRel(env, cfg, a.mem, x.data, Sub(a.stk, 4), ret);
    StackAddress(env.base, a.stk);
  }

  lemma CallReturns(env: Env, prog: seq<Amx.Instr>, k: int, d: int)
    requires Compiled(env, prog) && 0 <= k < |prog| && Placed(env, prog, k) && prog[k].op == Amx.Ctl(Amx.Call(d))
    ensures var ret := prog[k].address + prog[k].size;
            ret in env.resumes && env.resumes[ret] == env.labels[prog[k].address] + 1 && 0 <= env.resumes[ret] < |env.addrs|
    ensures var at := env.labels[prog[k].address]; 0 <= at < |env.code| && env.code[at] == Call(ToCode(d))
    ensures |env.addrs| == |env.code| + 1
  {
    assert ReturnKnown(env, prog[k]);
    assert Code(prog[k]) == [Call(ToCode(d))];
    CodeFrom(env, env.labels[prog[k].address], [Call(ToCode(d))], 0);
  }

  lemma CallRuns(env: Env, cfg: Amx.Cfg, a: Amx.State, x: State, at: int, d: int, ret: int, b: Amx.State) returns (y: State)
    requires Consistent(env, cfg) && Core(env, cfg, a, x) && |env.addrs| == |env.code| + 1
    requires 0 <= at < |env.code| && env.code[at] == Call(ToCode(d)) && d in env.labels
    requires ret in env.resumes && env.resumes[ret] == at + 1
    requires var m := Amx.StoreRet(cfg, a.mem, Sub(a.stk, 4), ret);
             m.Some? && b == a.(stk := Sub(a.stk, 4), mem := m.value)
    ensures Core(env, cfg, b, y) && Frame(x, y) && Reaches(env, Conf(x, at), Conf(y, env.labels[d]))
  {
    var sp := Sub(a.stk, 4);
    assert Has4(x.data, sp);
    y := Pushed(x, sp, env.addrs[at + 1]);
    CallStep(env, cfg, a, x, at, ToCode(d), env.labels[d]);
    CoreCall(env, cfg, a, x, ret, env.addrs[at + 1], b.mem);
  }

  lemma SimCall(env: Env, cfg: Amx.Cfg, prog: seq<Amx.Instr>, k: int, a: Amx.State, x: State, d: int)
    requires Compiled(env, prog) && Consistent(env, cfg) && 0 <= k < |prog| && Placed(env, prog, k)
    requires Core(env, cfg, a, x) && prog[k].op == Amx.Ctl(Amx.Call(d))
    ensures Matched(env, cfg, prog, Conf(x, env.labels[prog[k].address]), Amx.Transfer(cfg, prog, prog[k], Amx.Call(d), a))
  {
    hide Effects, Effect, Step, Run, Reaches, Code, CodeAt, Matched, Core;
    var ret := prog[k].address + prog[k].size;
    var at := env.labels[prog[k].address];
    var m := Amx.StoreRet(cfg, a.mem, Sub(a.stk, 4), ret);
    if m.Some? {
      CallReturns(env, prog, k, d);
      AtTarget(env, prog, k, d);
      var b := a.(stk := Sub(a.stk, 4), mem := m.value);
      var y := CallRuns(env, cfg, a, x, at, d, ret, b);
      Arrive(env, cfg, prog, d, b, Conf(x, at), y);
    } else {
      StuckMatched(env, cfg, prog, Conf(x, at));
    }
  }

  // ---- RET ---------------------------------------------------------------------

  /** pop ebp; add ebp, ebx. */
  lemma EffLeave(env: Env, x: State, v: Word)
    requires LoadAt(env, x, x.regs.esp) == Some(v)
    ensures Effects(env, [Pop(R(EBP)), Alu(AddOp, R(EBP), R(EBX))], x)
         == Some(Left(x, v))
  {
    Seq2(env, Pop(R(EBP)), Alu(AddOp, R(EBP), R(EBX)), x);
    EffPop(env, EBP, x, v);
  }

  lemma LeaveIs(a: Amx.State, b: Amx.State, ret: int) returns (frm: Word, t: Amx.State)
    requires Amx.Leave(a) == Some((b, ret))
    ensures Amx.LoadCell(a.mem, a.stk) == Some(frm) && t == Amx.LeaveFrame(a, frm)
    ensures Amx.LoadRet(t.mem, t.stk) == Some(ret) && b == Amx.SetStk(t, Add(t.stk, 4))
  {
    frm := Amx.LoadCell(a.mem, a.stk).value;
    t := Amx.LeaveFrame(a, frm);
  }

  /** The state behind the frame part of RET and RETN. */
  function Left(x: State, frm: Word): State {
    Undef(x).(regs := x.regs.(esp := Add(x.regs.esp, 4), ebp := Add(frm, x.regs.ebx)))
  }

  lemma CoreLeave(env: Env, cfg: Amx.Cfg, a: Amx.State, x: State, frm: Word)
    requires Consistent(env, cfg) && Core(env, cfg, a, x)
    ensures var y := Left(x, frm);
            Core(env, cfg, Amx.LeaveFrame(a, frm), y) && Frame(x, y)
  {
    StackAddress(env.base, a.stk);
    CoreScratch(env, cfg, a, x, x.regs.edx, x.regs.esi, x.regs.edi, NoFlags);
    CoreFrm(env, cfg, a, Undef(x), frm);
    CoreStk(env, cfg, a.(frm := frm), SetReg(Undef(x), EBP, Add(env.base, frm)), Add(a.stk, 4));
    assert Add(frm, env.base) == Add(env.base, frm);
  }

  /** The cell at STK holds the native address for ret. */
  lemma LoadReturn(env: Env, cfg: Amx.Cfg, a: Amx.State, x: State, ret: int)
    requires Consistent(env, cfg) && Core(env, cfg, a, x)
    requires Amx.LoadRet(a.mem, a.stk) == Some(ret)
    ensures ret in env.resumes && 0 <= env.resumes[ret] < |env.addrs|
    ensures LoadAt(env, x, x.regs.esp) == Some(env.addrs[env.resumes[ret]])
  {
    assert Sub(Add(env.base, a.stk), env.base) == a.stk;
    JoinOfBytes(PtrAt(env, env.resumes[ret]));
  }

  lemma RetStep(env: Env, x: State, at: int, p: Word, k: int)
    requires 0 <= at < |env.code| && env.code[at] == Ret
    requires LoadAt(env, x, x.regs.esp) == Some(p) && IndexOf(env.addrs, p) == Some(k)
    ensures Reaches(env, Conf(x, at), Conf(SetReg(x, ESP, Add(x.regs.esp, 4)), k))
  {
    var d := Conf(SetReg(x, ESP, Add(x.regs.esp, 4)), k);
    assert Step(env, Conf(x, at)) == DoRet(env, x);
    assert DoRet(env, x) == Some(d);
    ReachesStep(env, Conf(x, at), d);
  }

  /** Resuming at a return address, in a state that represents b. */
  lemma Resumed(env: Env, cfg: Amx.Cfg, prog: seq<Amx.Instr>, c: Conf, b: Amx.State, ret: int, y: State)
    requires Compiled(env, prog) && ret in env.resumes
    requires Core(env, cfg, b, y) && Frame(c.s, y) && Reaches(env, c, Conf(y, env.resumes[ret]))
    ensures Matched(env, cfg, prog, c, Amx.Resume(b, ret))
  {
    var d := Conf(y, env.resumes[ret]);
    if ret != 0 {
      CoreCip(env, cfg, b, y, ret);
      assert PcAt(env, prog, env.resumes[ret], ret);
    }
    assert Matches(env, cfg, prog, c, Amx.Resume(b, ret), d);
  }

  /** ret alone. */
  lemma RetOnly(env: Env, cfg: Amx.Cfg, t: Amx.State, y: State, at: int, ret: int)
    requires Consistent(env, cfg) && Core(env, cfg, t, y) && Addressed(env)
    requires 0 <= at < |env.code| && env.code[at] == Ret
    requires Amx.LoadRet(t.mem, t.stk) == Some(ret)
    ensures ret in env.resumes
    ensures var z := SetReg(y, ESP, Add(y.regs.esp, 4));
            Core(env, cfg, Amx.SetStk(t, Add(t.stk, 4)), z) && Frame(y, z)
            && Reaches(env, Conf(y, at), Conf(z, env.resumes[ret]))
  {
    LoadReturn(env, cfg, t, y, ret);
    IndexOfIs(env.addrs, env.resumes[ret]);
    RetStep(env, y, at, env.addrs[env.resumes[ret]], env.resumes[ret]);
    StackAddress(env.base, t.stk);
    CoreStk(env, cfg, t, y, Add(t.stk, 4));
  }

  lemma RetSplit(env: Env, at: int)
    requires CodeAt(env, at, [Pop(R(EBP)), Alu(AddOp, R(EBP), R(EBX)), Ret])
    ensures CodeAt(env, at, [Pop(R(EBP)), Alu(AddOp, R(EBP), R(EBX))])
    ensures 0 <= at + 2 < |env.code| && env.code[at + 2] == Ret
  {
    var code := [Pop(R(EBP)), Alu(AddOp, R(EBP), R(EBX)), Ret];
    CodeFrom(env, at, code, 2);
    assert code[..2] == [Pop(R(EBP)), Alu(AddOp, R(EBP), R(EBX))];
  }

  lemma RetRuns(env: Env, cfg: Amx.Cfg, a: Amx.State, x: State, at: int, b: Amx.State, ret: int) returns (z: State)
    requires Consistent(env, cfg) && Core(env, cfg, a, x) && Addressed(env)
    requires CodeAt(env, at, [Pop(R(EBP)), Alu(AddOp, R(EBP), R(EBX)), Ret])
    requires Amx.Leave(a) == Some((b, ret))
    ensures ret in env.resumes
    ensures Core(env, cfg, b, z) && Frame(x, z) && Reaches(env, Conf(x, at), Conf(z, env.resumes[ret]))
  {
    hide Effects, Effect, Step, Run, Reaches;
    var frm, t := LeaveIs(a, b, ret);
    var y := Left(x, frm);
    RetSplit(env, at);
    LoadRel(env, cfg, a, x, a.stk);
    EffLeave(env, x, frm);
    Straight(env, [Pop(R(EBP)), Alu(AddOp, R(EBP), R(EBX))], x, at, y);
    CoreLeave(env, cfg, a, x, frm);
    RetOnly(env, cfg, t, y, at + 2, ret);
    z := SetReg(y, ESP, Add(y.regs.esp, 4));
    FrameTrans(x, y, z);
    ReachesTrans(env, Conf(x, at), Conf(y, at + 2), Conf(z, env.resumes[ret]));
  }

  lemma SimRet(env: Env, cfg: Amx.Cfg, prog: seq<Amx.Instr>, k: int, a: Amx.State, x: State)
    requires Compiled(env, prog) && Consistent(env, cfg) && 0 <= k < |prog| && Placed(env, prog, k)
    requires Core(env, cfg, a, x) && prog[k].op == Amx.Ctl(Amx.Ret)
    ensures Matched(env, cfg, prog, Conf(x, env.labels[prog[k].address]), Amx.Transfer(cfg, prog, prog[k], Amx.Ret, a))
  {
    var at := env.labels[prog[k].address];
    var l := Amx.Leave(a);
    if l.Some? {
      assert Code(prog[k]) == [Pop(R(EBP)), Alu(AddOp, R(EBP), R(EBX)), Ret];
      var y := RetRuns(env, cfg, a, x, at, l.value.0, l.value.1);
      Resumed(env, cfg, prog, Conf(x, at), l.value.0, l.value.1, y);
    }
  }

  // ---- RETN ----------------------------------------------------------------------

  lemma EffPopReturn(env: Env, x: State, p: Word)
    requires LoadAt(env, x, x.regs.esp) == Some(p)
    ensures Effects(env, [Pop(R(EDX))], x) == Some(SetReg(SetReg(x, ESP, Add(x.regs.esp, 4)), EDX, p))
  {
    Seq1(env, Pop(R(EDX)), x);
    EffPop(env, EDX, x, p);
  }

  lemma EffDrop(env: Env, x: State, n: Word)
    requires LoadAt(env, x, Add(x.regs.esp, 0)) == Some(n)
    ensures Effects(env, [Alu(AddOp, R(ESP), Mm(At(ESP, 0))), Alu(AddOp, R(ESP), I(4))], x)
         == Some(SetReg(Undef(x), ESP, Add(Add(x.regs.esp, n), 4)))
  {
    Seq2(env, Alu(AddOp, R(ESP), Mm(At(ESP, 0))), Alu(AddOp, R(ESP), I(4)), x);
  }

  lemma EffSync(env: Env, x: State)
    requires x.rib.amx == env.amxPtr
    ensures var s := Sub(x.regs.esp, x.regs.ebx);
            Effects(env, [Mov(R(ESI), Mm(Rib(RibAmx))), Mov(R(EDI), R(ESP)), Alu(SubOp, R(EDI), R(EBX)), Mov(Mm(Amx(ESI, AStk)), R(EDI))], x)
            == Some(Undef(x).(regs := x.regs.(esi := env.amxPtr, edi := s), amx := x.amx.(stk := s)))
  {
    hide Effects;
    var c1, c2 := [Mov(R(ESI), Mm(Rib(RibAmx))), Mov(R(EDI), R(ESP))], [Alu(SubOp, R(EDI), R(EBX)), Mov(Mm(Amx(ESI, AStk)), R(EDI))];
    assert [Mov(R(ESI), Mm(Rib(RibAmx))), Mov(R(EDI), R(ESP)), Alu(SubOp, R(EDI), R(EBX)), Mov(Mm(Amx(ESI, AStk)), R(EDI))] == c1 + c2;
    SeqAppend(env, c1, c2, x);
    Seq2(env, c1[0], c1[1], x);
    var y := x.(regs := x.regs.(esi := env.amxPtr, edi := x.regs.esp));
    assert Effects(env, c1, x) == Some(y);
    Seq2(env, c2[0], c2[1], y);
  }

  lemma CoreSync(env: Env, cfg: Amx.Cfg, a: Amx.State, x: State, v: Word)
    requires Core(env, cfg, a, x)
    ensures var y := Undef(x).(regs := x.regs.(esi := env.amxPtr, edi := v), amx := x.amx.(stk := v));
            Core(env, cfg, a, y) && Frame(x, y)
  {
  }

  /** Writing below STK, over bytes the machine has forgotten. */
  lemma CoreScribble(env: Env, cfg: Amx.Cfg, a: Amx.State, x: State, at: int, v: Word)
    requires Core(env, cfg, a, x)
    requires a.stk <= cfg.size && at == a.stk - 4 && at >= 0
    requires forall b :: at <= b < at + 4 ==> b !in a.mem
    ensures MemRel(env, cfg, a.mem, Store4(x.data, at, v))
  {
  }

  lemma EffPushReturn(env: Env, x: State, at: int)
    requires Sub(Sub(x.regs.esp, 4), env.base) == at && Has4(x.data, at)
    ensures Effects(env, [Push(R(EDX))], x) == Some(Pushed(x, at, x.regs.edx))
  {
    Seq1(env, Push(R(EDX)), x);
  }

  /** The state behind the first three instructions of RETN: frame restored, return address
      in edx. */
  lemma RetnHead(env: Env, cfg: Amx.Cfg, a: Amx.State, x: State, frm: Word, ret: int, y: State)
    requires Consistent(env, cfg) && Core(env, cfg, a, x)
    requires Amx.LoadCell(a.mem, a.stk) == Some(frm) && Amx.LoadRet(Amx.LeaveFrame(a, frm).mem, Amx.LeaveFrame(a, frm).stk) == Some(ret)
    requires ret in env.resumes && 0 <= env.resumes[ret] < |env.addrs| ==>
               y == SetReg(SetReg(Left(x, frm),
                                  ESP, Add(Add(x.regs.esp, 4), 4)), EDX, env.addrs[env.resumes[ret]])
    ensures ret in env.resumes && 0 <= env.resumes[ret] < |env.addrs|
    ensures Effects(env, [Pop(R(EBP)), Alu(AddOp, R(EBP), R(EBX)), Pop(R(EDX))], x) == Some(y)
    ensures Core(env, cfg, Amx.SetStk(Amx.LeaveFrame(a, frm), Add(Amx.LeaveFrame(a, frm).stk, 4)), y) && Frame(x, y)
  {
    var c1, c2 := [Pop(R(EBP)), Alu(AddOp, R(EBP), R(EBX))], [Pop(R(EDX))];
    assert [Pop(R(EBP)), Alu(AddOp, R(EBP), R(EBX)), Pop(R(EDX))] == c1 + c2;
    LoadRel(env, cfg, a, x, a.stk);
    SeqAppend(env, c1, c2, x);
    EffLeave(env, x, frm);
    CoreLeave(env, cfg, a, x, frm);
    var t := Amx.LeaveFrame(a, frm);
    var u := Left(x, frm);
    LoadReturn(env, cfg, t, u, ret);
    EffPopReturn(env, u, env.addrs[env.resumes[ret]]);
    StackAddress(env.base, t.stk);
    CoreStk(env, cfg, t, u, Add(t.stk, 4));
    var v := SetReg(u, ESP, Add(u.regs.esp, 4));
    var p := env.addrs[env.resumes[ret]];
    CoreScratch(env, cfg, Amx.SetStk(t, Add(t.stk, 4)), v, p, v.regs.esi, v.regs.edi, v.fl);
    assert Scratch(v, p, v.regs.esi, v.regs.edi, v.fl) == y;
    FrameTrans(x, u, y);
  }

  /** Dropping the parameters: esp moves past them and amx->stk is brought up to date. */
  lemma RetnDrop(env: Env, cfg: Amx.Cfg, t: Amx.State, y: State, n: Word)
    requires Consistent(env, cfg) && Core(env, cfg, t, y)
    requires Amx.LoadCell(t.mem, t.stk) == Some(n) && t.stk + n + 4 <= cfg.size
    ensures var stk := t.stk + n + 4;
            var z := Undef(y).(regs := y.regs.(esp := Add(env.base, stk), esi := env.amxPtr, edi := stk), amx := y.amx.(stk := stk));
            Effects(env, [Alu(AddOp, R(ESP), Mm(At(ESP, 0))), Alu(AddOp, R(ESP), I(4))]
                       + [Mov(R(ESI), Mm(Rib(RibAmx))), Mov(R(EDI), R(ESP)), Alu(SubOp, R(EDI), R(EBX)), Mov(Mm(Amx(ESI, AStk)), R(EDI))], y)
            == Some(z)
            && Core(env, cfg, Amx.SetStk(t, stk), z) && Frame(y, z)
  {
    hide Effects, Effect;
    var stk: Word := t.stk + n + 4;
    LoadRel(env, cfg, t, y, t.stk);
    StackAddress(env.base, t.stk);
    EffDrop(env, y, n);
    assert Add(Add(Add(env.base, t.stk), n), 4) == Add(env.base, stk);
    assert Sub(Add(env.base, stk), env.base) == stk;
    var u := SetReg(Undef(y), ESP, Add(env.base, stk));
    SeqAppend(env, [Alu(AddOp, R(ESP), Mm(At(ESP, 0))), Alu(AddOp, R(ESP), I(4))],
      [Mov(R(ESI), Mm(Rib(RibAmx))), Mov(R(EDI), R(ESP)), Alu(SubOp, R(EDI), R(EBX)), Mov(Mm(Amx(ESI, AStk)), R(EDI))], y);
    EffSync(env, u);
    CoreScratch(env, cfg, t, y, y.regs.edx, y.regs.esi, y.regs.edi, NoFlags);
    CoreStk(env, cfg, t, Undef(y), stk);
    CoreSync(env, cfg, Amx.SetStk(t, stk), u, stk);
  }

  /** push edx with room below STK. */
  lemma RetnPush(env: Env, cfg: Amx.Cfg, b: Amx.State, z: State, at: int)
    requires Consistent(env, cfg) && Core(env, cfg, b, z) && 4 <= b.stk <= cfg.size
    requires CodeAt(env, at, [Push(R(EDX))])
    ensures var u := Pushed(z, b.stk - 4, z.regs.edx);
            && Reaches(env, Conf(z, at), Conf(u, at + 1)) && SetReg(u, ESP, Add(u.regs.esp, 4)) == z.(data := u.data)
            && Has4(u.data, Sub(u.regs.esp, env.base)) && Load4(u.data, Sub(u.regs.esp, env.base)) == z.regs.edx
            && u.data == Store4(z.data, b.stk - 4, z.regs.edx)
  {
    hide Load4, Effects, Effect, Step, Run, Reaches, CodeAt;
    StackAddress(env.base, b.stk);
    EffPushReturn(env, z, b.stk - 4);
    Straight(env, [Push(R(EDX))], z, at, Pushed(z, b.stk - 4, z.regs.edx));
    ReadBack(z.data, b.stk - 4, z.regs.edx);
  }

  /** push edx; ret with the return address in edx. */
  lemma RetnTail(env: Env, cfg: Amx.Cfg, b: Amx.State, z: State, at: int, ret: int)
    requires Consistent(env, cfg) && Core(env, cfg, b, z) && Addressed(env)
    requires CodeAt(env, at, [Push(R(EDX)), Ret])
    requires ret in env.resumes && 0 <= env.resumes[ret] < |env.addrs| && z.regs.edx == env.addrs[env.resumes[ret]]
    requires 4 <= b.stk <= cfg.size && forall k :: b.stk - 4 <= k < b.stk ==> k !in b.mem
    ensures var w := z.(data := Store4(z.data, b.stk - 4, z.regs.edx));
            Core(env, cfg, b, w) && Frame(z, w) && Reaches(env, Conf(z, at), Conf(w, env.resumes[ret]))
  {
    hide IndexOf, Load4, Store4, Has4, Effects, Effect, Step, Run, Reaches, CodeAt, Consistent, MemRel;
    var p, k := z.regs.edx, env.resumes[ret];
    assert CodeAt(env, at, [Push(R(EDX))]) && 0 <= at + 1 < |env.code| && env.code[at + 1] == Ret by { TailSplit(env, at); }
    RetnPush(env, cfg, b, z, at);
    var u := Pushed(z, b.stk - 4, p);
    IndexOfIs(env.addrs, k);
    RetStep(env, u, at + 1, p, k);
    CoreScribble(env, cfg, b, z, b.stk - 4, p);
    CoreData(env, cfg, b, z, b.mem, u.data);
    ReachesTrans(env, Conf(z, at), Conf(u, at + 1), Conf(z.(data := u.data), k));
  }

  lemma TailSplit(env: Env, at: int)
    requires CodeAt(env, at, [Push(R(EDX)), Ret])
    ensures CodeAt(env, at, [Push(R(EDX))]) && 0 <= at + 1 < |env.code| && env.code[at + 1] == Ret
  {
    CodeFrom(env, at, [Push(R(EDX)), Ret], 1);
    assert [Push(R(EDX)), Ret][..1] == [Push(R(EDX))];
  }

  const RETN_HEAD: seq<Insn> := [Pop(R(EBP)), Alu(AddOp, R(EBP), R(EBX)), Pop(R(EDX))]

  const RETN_DROP: seq<Insn> := [Alu(AddOp, R(ESP), Mm(At(ESP, 0))), Alu(AddOp, R(ESP), I(4))]
    + [Mov(R(ESI), Mm(Rib(RibAmx))), Mov(R(EDI), R(ESP)), Alu(SubOp, R(EDI), R(EBX)), Mov(Mm(Amx(ESI, AStk)), R(EDI))]

  lemma RetnSplit(env: Env, at: int)
    requires CodeAt(env, at, RETN)
    ensures CodeAt(env, at, RETN_HEAD) && CodeAt(env, at + 3, RETN_DROP) && CodeAt(env, at + 9, [Push(R(EDX)), Ret])
  {
    var tail := [Push(R(EDX)), Ret];
    assert RETN == RETN_HEAD + (RETN_DROP + tail);
    CodeFrom(env, at, RETN, 3);
    assert RETN[..3] == RETN_HEAD && RETN[3..] == RETN_DROP + tail;
    CodeFrom(env, at + 3, RETN_DROP + tail, 6);
    assert (RETN_DROP + tail)[..6] == RETN_DROP && (RETN_DROP + tail)[6..] == tail;
  }

  /** What RETN finds on the stack: the caller's frame, the return address and a byte count. */
  lemma LeaveNIs(cfg: Amx.Cfg, a: Amx.State, b: Amx.State, ret: int) returns (t: Amx.State, n: Word)
    requires Amx.LeaveN(cfg, a) == Some((b, ret)) && 0 <= cfg.size < HALF
    ensures Amx.Leave(a) == Some((t, ret)) && Amx.LoadCell(t.mem, t.stk) == Some(n)
    ensures t.stk + n + 4 <= cfg.size && b == Amx.SetStk(t, t.stk + n + 4)
  {
    t := Amx.Leave(a).value.0;
    n := Amx.LoadCell(t.mem, t.stk).value;
  }

  lemma RetnHeadRuns(env: Env, cfg: Amx.Cfg, a: Amx.State, x: State, at: int, t: Amx.State, ret: int) returns (y: State)
    requires Consistent(env, cfg) && Core(env, cfg, a, x)
    requires CodeAt(env, at, RETN_HEAD) && Amx.Leave(a) == Some((t, ret))
    ensures ret in env.resumes && 0 <= env.resumes[ret] < |env.addrs| && y.regs.edx == env.addrs[env.resumes[ret]]
    ensures Core(env, cfg, t, y) && Frame(x, y) && Reaches(env, Conf(x, at), Conf(y, at + 3))
  {
    var frm, u := LeaveIs(a, t, ret);
    var p := PtrAt(env, if ret in env.resumes then env.resumes[ret] else 0);
    y := SetReg(SetReg(Left(x, frm), ESP, Add(Add(x.regs.esp, 4), 4)), EDX, p);
    RetnHead(env, cfg, a, x, frm, ret, y);
    Straight(env, RETN_HEAD, x, at, y);
  }

  lemma RetnDropRuns(env: Env, cfg: Amx.Cfg, t: Amx.State, y: State, at: int, n: Word) returns (z: State)
    requires Consistent(env, cfg) && Core(env, cfg, t, y) && CodeAt(env, at, RETN_DROP)
    requires Amx.LoadCell(t.mem, t.stk) == Some(n) && t.stk + n + 4 <= cfg.size
    ensures Core(env, cfg, Amx.SetStk(t, t.stk + n + 4), z) && Frame(y, z) && z.regs.edx == y.regs.edx
    ensures Reaches(env, Conf(y, at), Conf(z, at + 6))
  {
    RetnDrop(env, cfg, t, y, n);
    var stk: Word := t.stk + n + 4;
    z := Undef(y).(regs := y.regs.(esp := Add(env.base, stk), esi := env.amxPtr, edi := stk), amx := y.amx.(stk := stk));
    Straight(env, RETN_DROP, y, at, z);
  }

  /** RETN up to the push of the return address. */
  lemma RetnPrefix(env: Env, cfg: Amx.Cfg, a: Amx.State, x: State, at: int, b: Amx.State, ret: int) returns (z: State)
    requires Consistent(env, cfg) && Core(env, cfg, a, x)
    requires CodeAt(env, at, RETN_HEAD) && CodeAt(env, at + 3, RETN_DROP)
    requires Amx.LeaveN(cfg, a) == Some((b, ret))
    ensures ret in env.resumes && 0 <= env.resumes[ret] < |env.addrs| && z.regs.edx == env.addrs[env.resumes[ret]]
    ensures Core(env, cfg, b, z) && Frame(x, z) && Reaches(env, Conf(x, at), Conf(z, at + 9))
  {
    var t, n := LeaveNIs(cfg, a, b, ret);
    var y := RetnHeadRuns(env, cfg, a, x, at, t, ret);
    z := RetnDropRuns(env, cfg, t, y, at + 3, n);
    ReachesTrans(env, Conf(x, at), Conf(y, at + 3), Conf(z, at + 9));
    FrameTrans(x, y, z);
  }

  lemma RetnForgets(cfg: Amx.Cfg, a: Amx.State, b: Amx.State, ret: int)
    requires Amx.LeaveN(cfg, a) == Some((b, ret)) && 0 <= cfg.size < HALF
    ensures 4 <= b.stk <= cfg.size && forall k :: b.stk - 4 <= k < b.stk ==> k !in b.mem
  {
    hide Amx.LeaveN, Amx.Leave, Amx.LoadCell;
    var t, n := LeaveNIs(cfg, a, b, ret);
  }

  lemma SimRetn(env: Env, cfg: Amx.Cfg, prog: seq<Amx.Instr>, k: int, a: Amx.State, x: State)
    requires Compiled(env, prog) && Consistent(env, cfg) && 0 <= k < |prog| && Placed(env, prog, k)
    requires Core(env, cfg, a, x) && prog[k].op == Amx.Ctl(Amx.Retn)
    ensures Matched(env, cfg, prog, Conf(x, env.labels[prog[k].address]), Amx.Transfer(cfg, prog, prog[k], Amx.Retn, a))
  {
    var at := env.labels[prog[k].address];
    var l := Amx.LeaveN(cfg, a);
    if l.Some? {
      var b, ret := l.value.0, l.value.1;
      assert Code(prog[k]) == RETN;
      RetnSplit(env, at);
      var z := RetnPrefix(env, cfg, a, x, at, b, ret);
      RetnForgets(cfg, a, b, ret);
      RetnTail(env, cfg, b, z, at + 9, ret);
      var w := z.(data := Store4(z.data, b.stk - 4, z.regs.edx));
      ReachesTrans(env, Conf(x, at), Conf(z, at + 9), Conf(w, env.resumes[ret]));
      FrameTrans(x, z, w);
      Resumed(env, cfg, prog, Conf(x, at), b, ret, w);
    }
  }

  // ---- HALT and BOUNDS --------------------------------------------------------------

  /** mov edi, e; call HaltHelper. */
  lemma StopRuns(env: Env, cfg: Amx.Cfg, a: Amx.State, x: State, at: int, e: Word)
    requires Consistent(env, cfg) && Core(env, cfg, a, x) && Amx.Room(cfg, a, 4)
    requires |env.addrs| == |env.code| + 1 && HaltHelper in env.helpers
    requires CodeAt(env, at, [Mov(R(EDI), I(e)), Call(ToHelper(HaltHelper))])
    ensures exists d: Conf :: Reaches(env, Conf(x, at), d) && Frame(x, d.s) && AtHalt(env, cfg, a, e, d)
  {
    hide Effects, Reaches, Step, Run;
    var code := [Mov(R(EDI), I(e)), Call(ToHelper(HaltHelper))];
    var sp := a.stk - 4;
    CodeFrom(env, at, code, 0);
    CodeFrom(env, at, code, 1);
    var y := SetReg(x, EDI, e);
    assert Effect(env, Mov(R(EDI), I(e)), x) == Some(y);
    PlainStep(env, Mov(R(EDI), I(e)), x, at, y);
    assert y == Scratch(x, x.regs.edx, x.regs.esi, e, x.fl);
    CoreScratch(env, cfg, a, x, x.regs.edx, x.regs.esi, e, x.fl);
    assert Has4(y.data, sp) && Sub(a.stk, 4) == sp;
    CallStep(env, cfg, a, y, at + 1, ToHelper(HaltHelper), env.helpers[HaltHelper]);
    var z := Pushed(y, sp, env.addrs[at + 2]);
    ReachesTrans(env, Conf(x, at), Conf(y, at + 1), Conf(z, env.helpers[HaltHelper]));
    CoreScribble(env, cfg, a, y, sp, env.addrs[at + 2]);
    CoreData(env, cfg, a, y, a.mem, z.data);
    HaltCore(env, cfg, a, y, z, sp, e, env.helpers[HaltHelper]);
    FrameTrans(x, y, z);
  }

  lemma HaltCore(env: Env, cfg: Amx.Cfg, a: Amx.State, y: State, z: State, sp: int, e: Word, k: int)
    requires Core(env, cfg, a, y.(data := z.data)) && sp == a.stk - 4 && sp >= 0 && y.regs.edi == e
    requires z == y.(regs := y.regs.(esp := Sub(y.regs.esp, 4)), data := z.data) && Has4(z.data, sp)
    requires HaltHelper in env.helpers && k == env.helpers[HaltHelper]
    ensures AtHalt(env, cfg, a, e, Conf(z, k)) && Frame(y, z)
  {
    assert SetReg(z, ESP, Add(env.base, a.stk)) == y.(data := z.data);
  }

  lemma SimHalt(env: Env, cfg: Amx.Cfg, prog: seq<Amx.Instr>, k: int, a: Amx.State, x: State, e: Word)
    requires Compiled(env, prog) && Consistent(env, cfg) && 0 <= k < |prog| && Placed(env, prog, k)
    requires Core(env, cfg, a, x) && prog[k].op == Amx.Ctl(Amx.Halt(e))
    ensures Matched(env, cfg, prog, Conf(x, env.labels[prog[k].address]), Amx.Transfer(cfg, prog, prog[k], Amx.Halt(e), a))
  {
    if Amx.Room(cfg, a, 4) {
      assert Code(prog[k]) == [Mov(R(EDI), I(e)), Call(ToHelper(HaltHelper))];
      StopRuns(env, cfg, a, x, env.labels[prog[k].address], e);
      var d: Conf :| Reaches(env, Conf(x, env.labels[prog[k].address]), d) && Frame(x, d.s) && AtHalt(env, cfg, a, e, d);
      assert Matches(env, cfg, prog, Conf(x, env.labels[prog[k].address]), Amx.Halted(a, e), d);
    }
  }

  /** The tests of BOUNDS: to the exit when 0 <= PRI <= v, to the stop otherwise. */
  lemma BoundsTests(env: Env, x: State, at: int, v: Word)
    requires CodeAt(env, at, [Cmp(EAX, I(v)), Jcc(G, Skip(3))]) && CodeAt(env, at + 2, [Test(EAX, R(EAX)), Jcc(L, Skip(1))])
    requires CodeAt(env, at + 4, [Jmp(Skip(2))])
    ensures exists fl: Flags :: Reaches(env, Conf(x, at), Conf(x.(fl := fl),
              if Int(x.regs.eax) > Int(v) || Int(x.regs.eax) < 0 then at + 5 else at + 7))
  {
    var f1, f2 := CmpFlags(x.regs.eax, v, M), TestFlags(x.regs.eax);
    CmpEffect(env, x, I(v), v);
    BoundsCond(x.regs.eax, v);
    TestAndJump(env, x, at, Cmp(EAX, I(v)), G, Skip(3), f1, at + 5);
    if Int(x.regs.eax) <= Int(v) {
      var y := x.(fl := f1);
      TestEffect(env, y);
      TestAndJump(env, y, at + 2, Test(EAX, R(EAX)), L, Skip(1), f2, at + 5);
      var z := x.(fl := f2);
      assert z == y.(fl := f2);
      if Int(x.regs.eax) < 0 {
        ReachesTrans(env, Conf(x, at), Conf(y, at + 2), Conf(z, at + 5));
      } else {
        CodeFrom(env, at + 4, [Jmp(Skip(2))], 0);
        JumpStep(env, z, at + 4, Skip(2), at + 7);
        ReachesTrans(env, Conf(x, at), Conf(y, at + 2), Conf(z, at + 4));
        ReachesTrans(env, Conf(x, at), Conf(z, at + 4), Conf(z, at + 7));
      }
    }
  }

  lemma BoundsCond(p: Word, v: Word)
    ensures Holds(G, CmpFlags(p, v, M)) <==> Int(p) > Int(v)
    ensures Holds(L, TestFlags(p)) <==> Int(p) < 0
  {
  }

  lemma BoundsSplit(env: Env, at: int, v: Word)
    requires CodeAt(env, at, ControlCode(Amx.Bounds(v)))
    ensures CodeAt(env, at, [Cmp(EAX, I(v)), Jcc(G, Skip(3))]) && CodeAt(env, at + 2, [Test(EAX, R(EAX)), Jcc(L, Skip(1))])
    ensures CodeAt(env, at + 4, [Jmp(Skip(2))])
    ensures CodeAt(env, at + 5, [Mov(R(EDI), I(Amx.AMX_ERR_BOUNDS)), Call(ToHelper(HaltHelper))])
  {
    var c1, c2, c3, c4 := [Cmp(EAX, I(v)), Jcc(G, Skip(3))], [Test(EAX, R(EAX)), Jcc(L, Skip(1))], [Jmp(Skip(2))],
                          [Mov(R(EDI), I(Amx.AMX_ERR_BOUNDS)), Call(ToHelper(HaltHelper))];
    var c := ControlCode(Amx.Bounds(v));
    assert c == c1 + (c2 + (c3 + c4));
    CodeFrom(env, at, c, 2);
    assert c[..2] == c1 && c[2..] == c2 + (c3 + c4);
    CodeFrom(env, at + 2, c2 + (c3 + c4), 2);
    assert (c2 + (c3 + c4))[..2] == c2 && (c2 + (c3 + c4))[2..] == c3 + c4;
    CodeFrom(env, at + 4, c3 + c4, 1);
    assert (c3 + c4)[..1] == c3 && (c3 + c4)[1..] == c4;
  }

  lemma SimBounds(env: Env, cfg: Amx.Cfg, prog: seq<Amx.Instr>, k: int, a: Amx.State, x: State, v: Word)
    requires Compiled(env, prog) && Consistent(env, cfg) && 0 <= k < |prog| && Placed(env, prog, k)
    requires Core(env, cfg, a, x) && prog[k].op == Amx.Ctl(Amx.Bounds(v))
    ensures Matched(env, cfg, prog, Conf(x, env.labels[prog[k].address]), Amx.Transfer(cfg, prog, prog[k], Amx.Bounds(v), a))
  {
    hide Effects, Effect, Step, Run, Reaches;
    var at := env.labels[prog[k].address];
    assert Code(prog[k]) == ControlCode(Amx.Bounds(v)) && |ControlCode(Amx.Bounds(v))| == 7;
    BoundsSplit(env, at, v);
    BoundsTests(env, x, at, v);
    var out := Int(a.pri) > Int(v) || Int(a.pri) < 0;
    var fl: Flags :| Reaches(env, Conf(x, at), Conf(x.(fl := fl), if out then at + 5 else at + 7));
    CoreFlags(env, cfg, a, x, fl);
    if !out {
      FallThrough(env, prog, k);
      Behind(env, cfg, prog, prog[k], a, Conf(x, at), x.(fl := fl));
    } else {
      BoundsStop(env, cfg, prog, a, x, fl, at);
    }
  }

  lemma BoundsStop(env: Env, cfg: Amx.Cfg, prog: seq<Amx.Instr>, a: Amx.State, x: State, fl: Flags, at: int)
    requires Consistent(env, cfg) && Core(env, cfg, a, x.(fl := fl))
    requires |env.addrs| == |env.code| + 1 && HaltHelper in env.helpers
    requires CodeAt(env, at + 5, [Mov(R(EDI), I(Amx.AMX_ERR_BOUNDS)), Call(ToHelper(HaltHelper))])
    requires Reaches(env, Conf(x, at), Conf(x.(fl := fl), at + 5))
    ensures Matched(env, cfg, prog, Conf(x, at), Amx.Stop(cfg, a, Amx.AMX_ERR_BOUNDS))
  {
    hide Reaches, CodeAt, Core;
    var e := Amx.AMX_ERR_BOUNDS;
    if Amx.Room(cfg, a, 4) {
      StopRuns(env, cfg, a, x.(fl := fl), at + 5, e);
      var d: Conf :| Reaches(env, Conf(x.(fl := fl), at + 5), d) && Frame(x.(fl := fl), d.s) && AtHalt(env, cfg, a, e, d);
      ReachesTrans(env, Conf(x, at), Conf(x.(fl := fl), at + 5), d);
      assert Matches(env, cfg, prog, Conf(x, at), Amx.Halted(a, e), d);
    }
  }
}
