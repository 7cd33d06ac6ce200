/** The compiled program does what the abstract machine specifies, step by step and over whole
    runs. */
module Simulation {
  import opened Word32
  import opened X86
  import Amx
  import opened Emit
  import opened Relation
  import opened Layout
  import opened SimControl
  import opened SimStack
  import SimBlock
  import opened SimCalls
  import opened SimIndirect

  lemma ControlSimulated(env: Env, cfg: Amx.Cfg, prog: seq<Amx.Instr>, k: int, a: Amx.State, x: State)
    requires Compiled(env, prog) && Consistent(env, cfg) && 0 <= k < |prog| && Placed(env, prog, k)
    requires Core(env, cfg, a, x) && prog[k].op.Ctl?
    ensures Matched(env, cfg, prog, Conf(x, env.labels[prog[k].address]), Amx.Transfer(cfg, prog, prog[k], prog[k].op.ctl, a))
  {
    hide Compiled, Core, Matched, Consistent, CodeAt, Code;
    match prog[k].op.ctl
    case Ret => SimRet(env, cfg, prog, k, a, x);
    case Retn => SimRetn(env, cfg, prog, k, a, x);
    case Call(d) => SimCall(env, cfg, prog, k, a, x, d);
    case JumpPri => IndirectSimulated(env, cfg, prog, k, a, x);
    case SetCip => IndirectSimulated(env, cfg, prog, k, a, x);
    case CodePtr => SimCodePtr(env, cfg, prog, k, a, x);
    case JumpPtr => SimJumpPtr(env, cfg, prog, k, a, x);
    case Jump(d) => SimJump(env, cfg, prog, k, a, x, d);
    case JZer(_) => SimBranches(env, cfg, prog, k, a, x);
    case JNz(_) => SimBranches(env, cfg, prog, k, a, x);
    case JRel(_, _) => SimBranches(env, cfg, prog, k, a, x);
    case Halt(e) => SimHalt(env, cfg, prog, k, a, x, e);
    case Bounds(v) => SimBounds(env, cfg, prog, k, a, x, v);
    case Switch(cases, d) => SimSwitch(env, cfg, prog, k, a, x, cases, d);
    case Sysreq(_) => StuckMatched(env, cfg, prog, Conf(x, env.labels[prog[k].address]));
  }

  lemma StraightSimulated(env: Env, cfg: Amx.Cfg, prog: seq<Amx.Instr>, k: int, a: Amx.State, x: State, b: Amx.State)
    requires Compiled(env, prog) && Consistent(env, cfg) && 0 <= k < |prog| && Placed(env, prog, k)
    requires Core(env, cfg, a, x) && !prog[k].op.Ctl? && Amx.Apply(cfg, prog[k], a) == Some(b)
    ensures Matched(env, cfg, prog, Conf(x, env.labels[prog[k].address]), Amx.Next(b.(cip := prog[k].address + prog[k].size)))
  {
    hide Compiled, Core, Matched, Simulates, CodeAt, Code, PcAt;
    var i := prog[k];
    if i.op.Blk? && i.op.blk.Cmps? {
      SimCmps(env, cfg, prog, k, a, x, i.op.blk.bytes, b);
    } else {
      PlainSimulated(env, cfg, i, a, x, b);
      FallThrough(env, prog, k);
      FromSimulates(env, cfg, prog, i, x, b, Code(i));
    }
  }

  lemma InstrSimulated(env: Env, cfg: Amx.Cfg, prog: seq<Amx.Instr>, k: int, a: Amx.State, x: State)
    requires Compiled(env, prog) && Consistent(env, cfg) && 0 <= k < |prog| && Placed(env, prog, k)
    requires Core(env, cfg, a, x)
    ensures Matched(env, cfg, prog, Conf(x, env.labels[prog[k].address]), Amx.Perform(cfg, prog, prog[k], a))
  {
    hide Compiled, Core, Matches, CodeAt, Code, Consistent;
    if prog[k].op.Ctl? {
      ControlSimulated(env, cfg, prog, k, a, x);
    } else {
      var b := Amx.Apply(cfg, prog[k], a);
      if b.Some? { StraightSimulated(env, cfg, prog, k, a, x, b.value); }
    }
  }

  lemma ToLabel(env: Env, cfg: Amx.Cfg, prog: seq<Amx.Instr>, a: Amx.State, c: Conf) returns (k: int)
    requires Compiled(env, prog) && Rel(env, cfg, prog, a, c) && Amx.Find(prog, a.cip) >= 0
    ensures 0 <= k < |prog| && k == Amx.Find(prog, a.cip) && Placed(env, prog, k)
    ensures Reaches(env, c, Conf(c.s, env.labels[prog[k].address]))
  {
    k := Amx.Find(prog, a.cip);
    RunPadding(env, c, env.labels[a.cip]);
  }

  /** Every step of the machine is matched by a run of the compiled code to a state that
      corresponds again: the next instruction, the return to the host, or the entry of
      HaltHelper. Native stack, runtime block and the rest of the AMX structure stay as they
      were. */
  lemma StepSimulated(env: Env, cfg: Amx.Cfg, prog: seq<Amx.Instr>, a: Amx.State, c: Conf)
    requires Compiled(env, prog) && Consistent(env, cfg) && Rel(env, cfg, prog, a, c)
    ensures Matched(env, cfg, prog, c, Amx.Step(cfg, prog, a))
  {
    hide Compiled, Core, Matched, Reaches, Placed, Consistent;
    if Amx.Find(prog, a.cip) >= 0 {
      var k := ToLabel(env, cfg, prog, a, c);
      var d := Conf(c.s, env.labels[prog[k].address]);
      InstrSimulated(env, cfg, prog, k, a, c.s);
      FrameSelf(c.s);
      Before(env, cfg, prog, c, d, Amx.Step(cfg, prog, a));
    } else {
      StuckMatched(env, cfg, prog, c);
    }
  }

  /** Semantic preservation: whatever the machine does in any number of steps, the compiled
      code does. */
  lemma {:induction false} RunSimulated(env: Env, cfg: Amx.Cfg, prog: seq<Amx.Instr>, n: nat, a: Amx.State, c: Conf)
    requires Compiled(env, prog) && Consistent(env, cfg) && Rel(env, cfg, prog, a, c)
    ensures Matched(env, cfg, prog, c, Amx.Steps(cfg, prog, n, a))
    decreases n
  {
    hide Compiled, Core, Reaches, Consistent;
    StepSimulated(env, cfg, prog, a, c);
    if n == 0 {
      ReachesSelf(env, c);
      FrameSelf(c.s);
      assert Matches(env, cfg, prog, c, Amx.Next(a), c);
    } else if Amx.Step(cfg, prog, a).Next? {
      var b := Amx.Step(cfg, prog, a).s;
      var d: Conf :| Matches(env, cfg, prog, c, Amx.Next(b), d);
      RunSimulated(env, cfg, prog, n - 1, b, d);
      Before(env, cfg, prog, c, d, Amx.Steps(cfg, prog, n - 1, b));
    }
  }

  // ---- what a stop leaves behind ---------------------------------------------------

  /** The stores of HaltHelper in front of the stack switch. */
  const HALT_SYNC: seq<Insn> :=
    [Mov(R(ESI), Mm(Rib(RibAmx))), Mov(Mm(Amx(ESI, AError)), R(EDI)), Mov(Mm(Amx(ESI, APri)), R(EAX))]
    + ([Mov(Mm(Amx(ESI, AAlt)), R(ECX)), Pop(R(ECX)), Mov(R(EDX), R(EBP))]
    + ([Alu(SubOp, R(EDX), R(EBX)), Mov(Mm(Amx(ESI, AFrm)), R(EDX)), Mov(R(EDX), R(ESP))]
    + ([Alu(SubOp, R(EDX), R(EBX)), Mov(Mm(Amx(ESI, AStk)), R(EDX))]
    + [Mov(R(ESP), Mm(Rib(RibResetEsp))), Mov(R(EBP), Mm(Rib(RibResetEbp)))])))

  lemma SyncOne(env: Env, x: State)
    requires x.rib.amx == env.amxPtr
    ensures Effects(env, [Mov(R(ESI), Mm(Rib(RibAmx))), Mov(Mm(Amx(ESI, AError)), R(EDI)), Mov(Mm(Amx(ESI, APri)), R(EAX))], x)
         == Some(x.(regs := x.regs.(esi := env.amxPtr), amx := x.amx.(error := x.regs.edi, pri := x.regs.eax)))
  {
    Seq3(env, Mov(R(ESI), Mm(Rib(RibAmx))), Mov(Mm(Amx(ESI, AError)), R(EDI)), Mov(Mm(Amx(ESI, APri)), R(EAX)), x);
  }

  lemma SyncTwo(env: Env, x: State, v: Word)
    requires x.regs.esi == env.amxPtr && LoadAt(env, x, x.regs.esp) == Some(v)
    ensures Effects(env, [Mov(Mm(Amx(ESI, AAlt)), R(ECX)), Pop(R(ECX)), Mov(R(EDX), R(EBP))], x)
         == Some(x.(regs := x.regs.(ecx := v, esp := Add(x.regs.esp, 4), edx := x.regs.ebp), amx := x.amx.(alt := x.regs.ecx)))
  {
    var y := x.(amx := x.amx.(alt := x.regs.ecx));
    EffPop(env, ECX, y, v);
    Seq3(env, Mov(Mm(Amx(ESI, AAlt)), R(ECX)), Pop(R(ECX)), Mov(R(EDX), R(EBP)), x);
    assert Effect(env, Mov(Mm(Amx(ESI, AAlt)), R(ECX)), x) == Some(y);
  }

  lemma SyncThree(env: Env, x: State)
    requires x.regs.esi == env.amxPtr
    ensures Effects(env, [Alu(SubOp, R(EDX), R(EBX)), Mov(Mm(Amx(ESI, AFrm)), R(EDX)), Mov(R(EDX), R(ESP))], x)
         == Some(Undef(x).(regs := x.regs.(edx := x.regs.esp), amx := x.amx.(frm := Sub(x.regs.edx, x.regs.ebx))))
  {
    Seq3(env, Alu(SubOp, R(EDX), R(EBX)), Mov(Mm(Amx(ESI, AFrm)), R(EDX)), Mov(R(EDX), R(ESP)), x);
  }

  lemma SyncFour(env: Env, x: State)
    requires x.regs.esi == env.amxPtr
    ensures Effects(env, [Alu(SubOp, R(EDX), R(EBX)), Mov(Mm(Amx(ESI, AStk)), R(EDX))], x)
         == Some(Undef(x).(regs := x.regs.(edx := Sub(x.regs.edx, x.regs.ebx)), amx := x.amx.(stk := Sub(x.regs.edx, x.regs.ebx))))
  {
    Seq2(env, Alu(SubOp, R(EDX), R(EBX)), Mov(Mm(Amx(ESI, AStk)), R(EDX)), x);
  }

  lemma SyncFive(env: Env, x: State)
    ensures Effects(env, [Mov(R(ESP), Mm(Rib(RibResetEsp))), Mov(R(EBP), Mm(Rib(RibResetEbp)))], x)
         == Some(x.(regs := x.regs.(esp := x.rib.resetEsp, ebp := x.rib.resetEbp)))
  {
    Seq2(env, Mov(R(ESP), Mm(Rib(RibResetEsp))), Mov(R(EBP), Mm(Rib(RibResetEbp))), x);
  }

  /** The registers of h, synced to the AMX structure with the error code. */
  function Synced(b: AmxBlock, h: Amx.State, e: Word): AmxBlock {
    b.(error := e, pri := h.pri, alt := h.alt, frm := h.frm, stk := h.stk)
  }

  lemma HaltEffects(env: Env, cfg: Amx.Cfg, h: Amx.State, e: Word, d: Conf) returns (y: State)
    requires Consistent(env, cfg) && AtHalt(env, cfg, h, e, d)
    ensures Effects(env, HALT_SYNC, d.s) == Some(y)
    ensures y.amx == Synced(d.s.amx, h, e) && y.rib == d.s.rib && y.native == d.s.native && y.data == d.s.data
    ensures y.regs.eax == h.pri
    ensures y.regs.esp == d.s.rib.resetEsp && y.regs.ebp == d.s.rib.resetEbp && y.regs.ebx == env.base
  {
    var x := d.s;
    StackAddress(env.base, h.stk);
    var v := Load4(x.data, Sub(h.stk, 4));
    var x1 := x.(regs := x.regs.(esi := env.amxPtr), amx := x.amx.(error := e, pri := h.pri));
    var x2 := x1.(regs := x1.regs.(ecx := v, esp := Add(x1.regs.esp, 4), edx := x1.regs.ebp), amx := x1.amx.(alt := h.alt));
    HaltStack(env, h.stk, x1);
    var x3 := Undef(x2).(regs := x2.regs.(edx := x2.regs.esp), amx := x2.amx.(frm := h.frm));
    var x4 := Undef(x3).(regs := x3.regs.(edx := h.stk), amx := x3.amx.(stk := h.stk));
    y := x4.(regs := x4.regs.(esp := x.rib.resetEsp, ebp := x.rib.resetEbp));
    HaltFields(env, h.frm, h.stk);
    HaltChain(env, x, x1, x2, x3, x4, y, v);
  }

  lemma HaltStack(env: Env, stk: Word, x: State)
    requires x.regs.esp == Sub(Add(env.base, stk), 4) && Has4(x.data, Sub(stk, 4))
    ensures LoadAt(env, x, x.regs.esp) == Some(Load4(x.data, Sub(stk, 4)))
    ensures Add(x.regs.esp, 4) == Add(env.base, stk)
  {
    StackAddress(env.base, stk);
  }

  lemma HaltFields(env: Env, frm: Word, stk: Word)
    ensures Sub(Add(env.base, frm), env.base) == frm && Sub(Add(env.base, stk), env.base) == stk
  {
  }

  lemma HaltChain(env: Env, x: State, x1: State, x2: State, x3: State, x4: State, y: State, v: Word)
    requires x.rib.amx == env.amxPtr
    requires x1 == x.(regs := x.regs.(esi := env.amxPtr), amx := x.amx.(error := x.regs.edi, pri := x.regs.eax))
    requires LoadAt(env, x1, x1.regs.esp) == Some(v)
    requires x2 == x1.(regs := x1.regs.(ecx := v, esp := Add(x1.regs.esp, 4), edx := x1.regs.ebp), amx := x1.amx.(alt := x1.regs.ecx))
    requires x3 == Undef(x2).(regs := x2.regs.(edx := x2.regs.esp), amx := x2.amx.(frm := Sub(x2.regs.edx, x2.regs.ebx)))
    requires x4 == Undef(x3).(regs := x3.regs.(edx := Sub(x3.regs.edx, x3.regs.ebx)), amx := x3.amx.(stk := Sub(x3.regs.edx, x3.regs.ebx)))
    requires y == x4.(regs := x4.regs.(esp := x4.rib.resetEsp, ebp := x4.rib.resetEbp))
    ensures Effects(env, HALT_SYNC, x) == Some(y)
  {
    hide Effects, Effect, LoadAt;
    SyncOne(env, x);
    SyncTwo(env, x1, v);
    SyncThree(env, x2);
    SyncFour(env, x3);
    SyncFive(env, x4);
    var c1, c2 := [Mov(R(ESI), Mm(Rib(RibAmx))), Mov(Mm(Amx(ESI, AError)), R(EDI)), Mov(Mm(Amx(ESI, APri)), R(EAX))],
                  [Mov(Mm(Amx(ESI, AAlt)), R(ECX)), Pop(R(ECX)), Mov(R(EDX), R(EBP))];
    var c3, c4 := [Alu(SubOp, R(EDX), R(EBX)), Mov(Mm(Amx(ESI, AFrm)), R(EDX)), Mov(R(EDX), R(ESP))],
                  [Alu(SubOp, R(EDX), R(EBX)), Mov(Mm(Amx(ESI, AStk)), R(EDX))];
    var c5 := [Mov(R(ESP), Mm(Rib(RibResetEsp))), Mov(R(EBP), Mm(Rib(RibResetEbp)))];
    SeqJoin(env, c4, c5, x3, x4, y);
    SeqJoin(env, c3, c4 + c5, x2, x3, y);
    SeqJoin(env, c2, c3 + (c4 + c5), x1, x2, y);
    SeqJoin(env, c1, c2 + (c3 + (c4 + c5)), x, x1, y);
  }

  lemma HaltSplit(env: Env, at: int)
    requires CodeAt(env, at, HALT_HELPER)
    ensures CodeAt(env, at, HALT_SYNC) && 0 <= at + 13 < |env.code| && env.code[at + 13] == Jmp(ToHelper(ExecExit))
  {
    assert HALT_HELPER == HALT_SYNC + [Jmp(ToHelper(ExecExit))];
    CodeFrom(env, at, HALT_HELPER, 13);
    assert HALT_HELPER[..13] == HALT_SYNC;
  }

  /** A run that stops, by HALT or by a failed bounds check at any call depth, leaves PRI, ALT,
      FRM, STK and the error code of the machine in the AMX structure, and the stack registers
      at the values ExecHelper prepared. */
  lemma HaltSynced(env: Env, cfg: Amx.Cfg, prog: seq<Amx.Instr>, n: nat, a: Amx.State, c: Conf) returns (y: State)
    requires Compiled(env, prog) && Consistent(env, cfg) && Rel(env, cfg, prog, a, c)
    requires Amx.Steps(cfg, prog, n, a).Halted?
    ensures var o := Amx.Steps(cfg, prog, n, a);
            && y.amx == Synced(c.s.amx, o.h, o.error).(hea := o.h.hea)
            && MemRel(env, cfg, o.h.mem, y.data)
    ensures var h, t := Amx.Steps(cfg, prog, n, a).h, y.amx;
            t.pri == h.pri && t.alt == h.alt && t.frm == h.frm && t.stk == h.stk && t.hea == h.hea && t.error == Amx.Steps(cfg, prog, n, a).error
    ensures y.native == c.s.native && y.rib == c.s.rib && y.regs.eax == Amx.Steps(cfg, prog, n, a).h.pri
    ensures y.regs.esp == c.s.rib.resetEsp && y.regs.ebp == c.s.rib.resetEbp && y.regs.ebx == env.base
    ensures ExecExit in env.helpers && Reaches(env, c, Conf(y, env.helpers[ExecExit]))
  {
    var o := Amx.Steps(cfg, prog, n, a);
    RunSimulated(env, cfg, prog, n, a, c);
    var d: Conf :| Matches(env, cfg, prog, c, o, d);
    y := HaltEffects(env, cfg, o.h, o.error, d);
    HaltReaches(env, d.s, y);
    ReachesTrans(env, c, d, Conf(y, env.helpers[ExecExit]));
  }

  lemma HaltReaches(env: Env, x: State, y: State)
    requires HelpersPlaced(env) && Effects(env, HALT_SYNC, x) == Some(y)
    ensures Reaches(env, Conf(x, env.helpers[HaltHelper]), Conf(y, env.helpers[ExecExit]))
  {
    hide Effects;
    var at := env.helpers[HaltHelper];
    HaltSplit(env, at);
    Straight(env, HALT_SYNC, x, at, y);
    JumpStep(env, y, at + 13, ToHelper(ExecExit), env.helpers[ExecExit]);
    ReachesTrans(env, Conf(x, at), Conf(y, at + 13), Conf(y, env.helpers[ExecExit]));
  }
}
