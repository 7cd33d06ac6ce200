/** Arbitrarily nested calls: the host calls Exec, compiled code calls native functions, native
    functions call Exec again. Whatever the nesting, and however each run ends, every call of
    Exec returns to its own caller and leaves the runtime block as it found it. */
module Nesting {
  import opened Word32
  import opened X86
  import Amx
  import opened Emit
  import opened Runtime
  import opened Relation
  import opened Insns
  import opened Layout
  import opened SimControl
  import opened SimIndirect
  import opened Simulation
  import opened Compiler
  import opened ExecEnter
  import opened ExecRuns
  import opened ExecLeave
  import opened Extent
  import opened Sysreq

  /** A native function that has not returned: the state in which the enclosing Exec was
      called, the state in which the function was entered, the AMX state to resume, and where
      its code goes on. */
  datatype Pending = Pending(exec: State, native: State, amx: Amx.State, resume: int)

  /** C code runs: the host's, or that of the native function of calls[0]. */
  datatype World = World(s: State, mem: Amx.Memory, calls: seq<Pending>)

  /** An address that is not in the assembled code. */
  ghost predicate Foreign(env: Env, p: Word) {
    forall k :: 0 <= k < |env.addrs| ==> env.addrs[k] != p
  }

  /** What Exec's caller provides: room on the native stack, a return address of C code, and a
      place for the result. */
  ghost predicate Callable(env: Env, s: State) {
    && 104 <= s.regs.esp && Words(s, s.regs.esp, 104, 12) && ResultPlace(s) && s.rib.amx == env.amxPtr
    && Foreign(env, s.native[s.regs.esp])
  }

  ghost predicate Suspended(env: Env, cfg: Amx.Cfg, prog: seq<Amx.Instr>, p: Pending) {
    var e, n, a := p.exec.regs.esp, p.native, p.amx;
    && Callable(env, p.exec) && Running(env, p.exec, n)
    && n.regs.esp == e - 88 && n.regs.ebx == env.base
    && Stored(n.native, e - 68, Add(env.base, a.stk)) && Stored(n.native, e - 72, Add(env.base, a.frm))
    && Stored(n.native, e - 76, a.alt) && Stored(n.native, e - 88, PtrAt(env, 184))
    && 0 <= p.resume < |env.addrs| && n.regs.esi == env.addrs[p.resume] && PcAt(env, prog, p.resume, a.cip)
    && 8 <= a.stk <= cfg.size
    && Stored(n.native, e - 84, env.amxPtr) && Stored(n.native, e - 80, Add(env.base, a.stk))
    && n.amx.frm == a.frm && n.amx.stk == a.stk && n.amx.hea == a.hea
  }

  /** The words that a native function must leave alone: its return address and what lies above
      its two arguments. */
  ghost predicate Respects(n: State, m: map<Word, Word>) {
    && m.Keys == n.native.Keys
    && forall k :: k in m && (k == n.regs.esp || k >= n.regs.esp + 12) ==> m[k] == n.native[k]
  }

  /** C code in state s runs on behalf of the native function of p. */
  ghost predicate Under(p: Pending, s: State) {
    s.rib == p.native.rib && Respects(p.native, s.native)
  }

  /** A call of Exec from there: its arguments and result lie in the part of the stack that the
      function may use. */
  ghost predicate CallsFrom(p: Pending, s: State) {
    Under(p, s) && s.regs.esp + 12 <= p.native.regs.esp && ResultPtr(s) < p.native.regs.esp
  }

  ghost predicate Linked(calls: seq<Pending>, i: int)
    requires 0 <= i < |calls| - 1
  {
    CallsFrom(calls[i + 1], calls[i].exec)
  }

  /** The invariant: every pending call can be resumed and returned from. */
  ghost predicate Inv(env: Env, cfg: Amx.Cfg, prog: seq<Amx.Instr>, w: World) {
    && Sound(env, cfg, w.mem, w.s)
    && (forall i :: 0 <= i < |w.calls| ==> Suspended(env, cfg, prog, w.calls[i]))
    && (forall i :: 0 <= i < |w.calls| - 1 ==> Linked(w.calls, i))
    && (|w.calls| > 0 ==> Under(w.calls[0], w.s))
  }

  // ---- machine runs ------------------------------------------------------------------------

  /** The machine runs from c until control leaves the assembled code at d. */
  ghost predicate Stops(env: Env, c: Conf, d: Conf) {
    Reaches(env, c, d) && Step(env, d).None?
  }

  lemma {:induction false} RunPast(env: Env, n: nat, m: nat, c: Conf, d: Conf)
    requires Run(env, n, c) == Some(d) && Step(env, d).None? && m > n
    ensures Run(env, m, c).None?
  {
    hide Step;
    RunAdd(env, n, m - n, c);
  }

  lemma StopsOnce(env: Env, c: Conf, d: Conf, e: Conf)
    requires Stops(env, c, d) && Stops(env, c, e)
    ensures d == e
  {
    hide Step;
    var n: nat :| Run(env, n, c) == Some(d);
    var m: nat :| Run(env, m, c) == Some(e);
    if n < m { RunPast(env, n, m, c, d); } else if m < n { RunPast(env, m, n, c, e); }
  }

  lemma {:induction false} IndexOfNone(addrs: seq<Word>, p: Word)
    requires forall k :: 0 <= k < |addrs| ==> addrs[k] != p
    ensures IndexOf(addrs, p) == None
  {
    if |addrs| > 0 { IndexOfNone(addrs[..|addrs| - 1], p); }
  }

  lemma RetStops(env: Env, x: State, at: int)
    requires 0 <= at < |env.code| && env.code[at] == Ret && Apart(env, x) && x.regs.esp in x.native
    requires Foreign(env, x.native[x.regs.esp])
    ensures Step(env, Conf(x, at)).None?
  {
    IndexOfNone(env.addrs, x.native[x.regs.esp]);
  }

  lemma CallStops(env: Env, x: State, at: int)
    requires 0 <= at < |env.code| && env.code[at] == CallReg(EAX) && Foreign(env, x.regs.eax)
    ensures Step(env, Conf(x, at)).None?
  {
    IndexOfNone(env.addrs, x.regs.eax);
  }

  // ---- what a run of compiled code comes to --------------------------------------------------

  /** The native function that the instruction at CIP calls, by its address. */
  function NativeAt(prog: seq<Amx.Instr>, a: Amx.State): Option<Word> {
    var k := Amx.Find(prog, a.cip);
    if k >= 0 && prog[k].op.Ctl? && prog[k].op.ctl.Sysreq? && prog[k].op.ctl.call.ByAddress?
    then Some(prog[k].op.ctl.call.address) else None
  }

  /** The run from a ends in o: it returns, it is halted, or it arrives at the call of a native
      function with room for the call below STK. */
  ghost predicate Finishes(env: Env, cfg: Amx.Cfg, prog: seq<Amx.Instr>, a: Amx.State, o: Amx.Outcome) {
    && (exists n: nat :: Amx.Steps(cfg, prog, n, a) == o)
    && match o
       case Next(b) => NativeAt(prog, b).Some? && Amx.Room(cfg, b, 8) && Foreign(env, NativeAt(prog, b).value)
       case Halted(_, _) => true
       case Done(_) => true
       case Stuck => false
  }

  /** The suspended state: at the instruction behind the call. */
  function Waiting(prog: seq<Amx.Instr>, b: Amx.State): Amx.State {
    var k := Amx.Find(prog, b.cip);
    if k >= 0 then b.(cip := prog[k].address + prog[k].size) else b
  }

  /** C code runs after the machine left the assembled code at d: behind Exec's caller's call,
      or in the native function. */
  function Back(s: State): State { SetReg(s, ESP, Add(s.regs.esp, 4)) }

  function Called(env: Env, s: State): State {
    s.(regs := s.regs.(esp := Sub(s.regs.esp, 4)), native := s.native[Sub(s.regs.esp, 4) := PtrAt(env, 184)])
  }

  // ---- the run of a public function under a call of Exec ------------------------------------

  /** The parts of the AMX structure that neither compiled code nor C code may change. */
  ghost predicate Fixed(env: Env, cfg: Amx.Cfg, b: AmxBlock) {
    DataPointer(env, b) == env.base && b.stp == cfg.stp
  }

  lemma RunningSame(env: Env, s: State, x: State, y: State)
    requires Running(env, s, x) && y.native == x.native && y.rib == x.rib && y.data.Keys == x.data.Keys
    ensures Running(env, s, y)
  {
    hide Framed;
    ApartKeys(env, x, y);
  }

  /** The AMX structure has the registers of b. */
  ghost predicate HoldsRegs(t: AmxBlock, b: Amx.State) {
    t.pri == b.pri && t.alt == b.alt && t.frm == b.frm && t.stk == b.stk && t.hea == b.hea
  }

  /** The run ended at d, at the return of Exec: its caller's state, the AMX memory m, and the
      registers of b in the AMX structure. */
  ghost predicate Leaves(env: Env, cfg: Amx.Cfg, s: State, d: Conf, m: Amx.Memory, b: Amx.State, error: Word) {
    && d.pc == 70 && 70 < |env.code| && env.code[70] == Ret
    && Returned(s, d.s, b.pri, error) && MemRel(env, cfg, m, d.s.data) && Fixed(env, cfg, d.s.amx) && Apart(env, d.s)
    && HoldsRegs(d.s.amx, b)
  }

  /** Both ends of a run meet at exec_exit_label. */
  lemma ExitLeaves(env: Env, cfg: Amx.Cfg, s: State, c: Conf, x: State, m: Amx.Memory, b: Amx.State) returns (d: Conf)
    requires RuntimeAt(env) && Addressed(env) && Callable(env, s) && Running(env, s, x)
    requires Reaches(env, c, Conf(x, 122)) && MemRel(env, cfg, m, x.data) && Fixed(env, cfg, x.amx)
    requires x.regs.eax == b.pri && HoldsRegs(x.amx, b)
    ensures Stops(env, c, d) && Leaves(env, cfg, s, d, m, b, x.amx.error)
  {
    hide Reaches, Step, RuntimeAt, Addressed, MemRel, Apart, Foreign, Framed, ResultPlace;
    var y := ExecReturns(env, s, x);
    d := Conf(y, 70);
    ReachesTrans(env, c, Conf(x, 122), d);
    assert Apart(env, y) by { ReturnedApart(env, s, x, y); }
    ReturnStops(env, s, y, x.regs.eax, x.amx.error);
  }

  lemma ReturnedApart(env: Env, s: State, x: State, y: State)
    requires Running(env, s, x) && ResultPlace(s) && Returned(s, y, x.regs.eax, x.amx.error) && y.data == x.data
    ensures Apart(env, y)
  {
    assert y.native.Keys == s.native.Keys;
    assert x.native.Keys == s.native.Keys;
    ApartKeys(env, x, y);
  }

  lemma ReturnStops(env: Env, s: State, y: State, result: Word, error: Word)
    requires Callable(env, s) && Returned(s, y, result, error) && Apart(env, y) && 70 < |env.code| && env.code[70] == Ret
    ensures Step(env, Conf(y, 70)).None?
  {
    hide Apart, Foreign, Step;
    assert y.regs.esp in y.native && y.native[y.regs.esp] == s.native[s.regs.esp];
    RetStops(env, y, 70);
  }

  lemma RunReturns(env: Env, cfg: Amx.Cfg, prog: seq<Amx.Instr>, s: State, c: Conf, a: Amx.State, n: nat, b: Amx.State) returns (d: Conf)
    requires Compiled(env, prog) && RuntimeAt(env) && Consistent(env, cfg)
    requires Callable(env, s) && Running(env, s, c.s) && Fixed(env, cfg, c.s.amx) && Rel(env, cfg, prog, a, c)
    requires Amx.Steps(cfg, prog, n, a) == Amx.Done(b)
    ensures Stops(env, c, d) && Leaves(env, cfg, s, d, b.mem, b, c.s.amx.error)
    ensures d.s.amx.pri == b.pri && d.s.amx.alt == b.alt && d.s.amx.frm == b.frm && d.s.amx.stk == b.stk && d.s.amx.hea == b.hea
  {
    hide Reaches, RuntimeAt, Addressed, MemRel, Compiled, Callable, Running, Fixed, Leaves;
    RunSimulated(env, cfg, prog, n, a, c);
    var e: Conf :| Matches(env, cfg, prog, c, Amx.Done(b), e);
    assert Addressed(env) by { CompiledParts(env, prog); }
    RuntimeParts(env);
    ReachesExtent(env, c, e);
    var x := SyncedBack(env, e.s);
    SyncRuns(env, e.s);
    ReachesTrans(env, c, e, Conf(x, 122));
    RunningSame(env, s, c.s, x);
    assert Fixed(env, cfg, x.amx) by { FixedSame(env, cfg, c.s.amx, x.amx); }
    assert x.regs.eax == b.pri && HoldsRegs(x.amx, b) by { BackHolds(env, cfg, b, e.s); }
    d := ExitLeaves(env, cfg, s, c, x, b.mem, b);
    assert HoldsRegs(d.s.amx, b) by { LeavesHolds(env, cfg, s, d, b.mem, b, c.s.amx.error); }
  }

  lemma BackHolds(env: Env, cfg: Amx.Cfg, b: Amx.State, x: State)
    requires Core(env, cfg, b, x)
    ensures SyncedBack(env, x).regs.eax == b.pri && HoldsRegs(SyncedBack(env, x).amx, b)
  {
    hide MemRel;
    HaltFields(env, b.frm, b.stk);
  }

  lemma LeavesHolds(env: Env, cfg: Amx.Cfg, s: State, d: Conf, m: Amx.Memory, b: Amx.State, error: Word)
    requires Leaves(env, cfg, s, d, m, b, error)
    ensures HoldsRegs(d.s.amx, b)
  {
  }

  lemma FixedSame(env: Env, cfg: Amx.Cfg, b: AmxBlock, t: AmxBlock)
    requires Fixed(env, cfg, b) && t.base == b.base && t.data == b.data && t.stp == b.stp
    ensures Fixed(env, cfg, t)
  {
  }

  lemma RunHalts(env: Env, cfg: Amx.Cfg, prog: seq<Amx.Instr>, s: State, c: Conf, a: Amx.State, n: nat, h: Amx.State, e: Word) returns (d: Conf)
    requires Compiled(env, prog) && RuntimeAt(env) && Consistent(env, cfg)
    requires Callable(env, s) && Running(env, s, c.s) && Fixed(env, cfg, c.s.amx) && Rel(env, cfg, prog, a, c)
    requires Amx.Steps(cfg, prog, n, a) == Amx.Halted(h, e)
    ensures Stops(env, c, d) && Leaves(env, cfg, s, d, h.mem, h, e)
    ensures d.s.amx.pri == h.pri && d.s.amx.alt == h.alt && d.s.amx.frm == h.frm && d.s.amx.stk == h.stk && d.s.amx.hea == h.hea
  {
    hide Reaches, RuntimeAt, Addressed, MemRel, Compiled, Callable, Running, Fixed, Leaves, Rel;
    assert Addressed(env) by { CompiledParts(env, prog); }
    RuntimeParts(env);
    var x := HaltSynced(env, cfg, prog, n, a, c);
    ReachesExtent(env, c, Conf(x, 122));
    RunningSame(env, s, c.s, x);
    assert Fixed(env, cfg, x.amx) by { FixedSame(env, cfg, c.s.amx, x.amx); }
    d := ExitLeaves(env, cfg, s, c, x, h.mem, h);
    assert HoldsRegs(d.s.amx, h) by { LeavesHolds(env, cfg, s, d, h.mem, h, e); }
  }

  // ---- a native function called -------------------------------------------------------------

  lemma FramedAbove(env: Env, s: State, n: map<Word, Word>, m: map<Word, Word>)
    requires Framed(env, s, n) && Above(n, m, s.regs.esp - 64) && 104 <= s.regs.esp
    ensures Framed(env, s, m)
  {
    hide Stored, Above, PtrAt;
    StoredAbove(n, m, s.regs.esp - 64);
    AboveTrans(s.native, n, m, s.regs.esp, s.regs.esp - 64);
  }

  /** Where a call of a native function from b resumes. */
  function ResumeAt(env: Env, b: Amx.State): int {
    if b.cip in env.ends then env.ends[b.cip] else 0
  }

  lemma CallMemory(env: Env, cfg: Amx.Cfg, b: Amx.State, d: Data, p: Word, q: Word)
    requires MemRel(env, cfg, b.mem, d) && Amx.Room(cfg, b, 8)
    ensures MemRel(env, cfg, b.mem, WithCall(d, b.stk, p, q))
    ensures Has4(d, b.stk - 4) && Has4(d, b.stk - 8)
  {
    var f := WithCall(d, b.stk, p, q);
    forall o | 0 <= o < b.stk - 8 || b.stk <= o
      ensures (o in f <==> o in d) && (o in d ==> f[o] == d[o])
    {
    }
  }

  /** The words that SysreqDHelper and the call itself leave on the native stack. */
  lemma CallingStack(env: Env, s: State, y: State, stk: Word, frm: Word, q: Word, p: Word)
    requires Running(env, s, y) && |env.addrs| > 184 && y.regs.ebp == Add(env.base, frm)
    ensures var e, n := s.regs.esp, Called(env, Calling(env, y, s.regs.esp, stk, q, p));
            && n.regs.esp == e - 88 && Above(y.native, n.native, e - 64)
            && Stored(n.native, e - 68, Add(env.base, stk)) && Stored(n.native, e - 72, Add(env.base, frm))
            && Stored(n.native, e - 76, y.regs.ecx) && Stored(n.native, e - 88, PtrAt(env, 184))
            && Stored(n.native, e - 84, env.amxPtr) && Stored(n.native, e - 80, Add(env.base, stk))
  {
    hide Framed, Apart, Add;
  }

  /** The native function's frame, seen from the call of Exec. */
  lemma CallingRuns(env: Env, s: State, x: State, y: State, stk: Word, frm: Word, q: Word, p: Word)
    requires Running(env, s, x) && y.native == x.native && y.rib == x.rib && y.data.Keys == x.data.Keys
    requires |env.addrs| > 184 && y.regs.ebp == Add(env.base, frm)
    ensures Running(env, s, y) && Running(env, s, Called(env, Calling(env, y, s.regs.esp, stk, q, p)))
  {
    hide Framed, Apart, Add, Above;
    RunningSame(env, s, x, y);
    var n := Called(env, Calling(env, y, s.regs.esp, stk, q, p));
    CallingStack(env, s, y, stk, frm, q, p);
    FramedAbove(env, s, y.native, n.native);
    AboveKeys(y.native, n.native, s.regs.esp - 64);
    ApartSame(env, y, n);
  }

  lemma AtNative(env: Env, cfg: Amx.Cfg, prog: seq<Amx.Instr>, b: Amx.State, d: Conf) returns (at: int)
    requires Compiled(env, prog) && Rel(env, cfg, prog, b, d) && NativeAt(prog, b).Some?
    ensures Reaches(env, d, Conf(d.s, at)) && CodeAt(env, at, [Push(I(NativeAt(prog, b).value)), Call(ToHelper(SysreqDHelper))])
    ensures ResumeAt(env, b) == at + 2 && PcAt(env, prog, at + 2, Waiting(prog, b).cip)
  {
    hide Reaches, Core, CodeAt, Padding;
    var k := ToLabel(env, cfg, prog, b, d);
    at := env.labels[prog[k].address];
    assert Code(prog[k]) == [Push(I(NativeAt(prog, b).value)), Call(ToHelper(SysreqDHelper))];
    FallThrough(env, prog, k);
  }

  /** From the instruction to the call in SysreqDHelper. */
  lemma NativeArrives(env: Env, cfg: Amx.Cfg, prog: seq<Amx.Instr>, s: State, b: Amx.State, e: Conf, p: Word) returns (d: Conf)
    requires Compiled(env, prog) && RuntimeAt(env) && Addressed(env)
    requires Callable(env, s) && Running(env, s, e.s) && Fixed(env, cfg, e.s.amx) && Rel(env, cfg, prog, b, e)
    requires NativeAt(prog, b) == Some(p) && Amx.Room(cfg, b, 8)
    ensures Reaches(env, e, d) && d.pc == 183 && d.s.regs.eax == p
    ensures Suspended(env, cfg, prog, Pending(s, Called(env, d.s), Waiting(prog, b), ResumeAt(env, b)))
    ensures Sound(env, cfg, b.mem, Called(env, d.s))
  {
    hide Reaches, RuntimeAt, Addressed, MemRel, Compiled, Callable, Running, Fixed, Foreign, CodeAt, Suspended, Amx.Room, Has4, NativeAt, Waiting, ResumeAt, PcAt, WithCall, Step, Core, Add, Sound, Called;
    RuntimeParts(env);
    RunningEsp(env, s, e.s);
    RoomAt(cfg, b);
    var at := AtNative(env, cfg, prog, b, e);
    CoreParts(env, cfg, b, e.s);
    CallMemory(env, cfg, b, e.s.data, p, PtrAt(env, at + 2));
    var y := NativeReached(env, s, e.s, at, b.stk, p);
    d := Conf(Calling(env, y, s.regs.esp, b.stk, env.addrs[at + 2], p), 183);
    ReachesTrans(env, e, Conf(e.s, at), d);
    CallSlots(e.s.data, b.stk, p, env.addrs[at + 2]);
    WaitsThere(env, cfg, prog, s, b, e.s, y, at, p);
  }

  lemma RoomAt(cfg: Amx.Cfg, b: Amx.State)
    requires Amx.Room(cfg, b, 8)
    ensures 8 <= b.stk <= cfg.size
  {
  }

  /** The machine stops at the native function's entry; the call of Exec can wait there. */
  lemma RunCalls(env: Env, cfg: Amx.Cfg, prog: seq<Amx.Instr>, s: State, c: Conf, a: Amx.State, n: nat, b: Amx.State, p: Word) returns (d: Conf)
    requires Compiled(env, prog) && RuntimeAt(env) && Consistent(env, cfg)
    requires Callable(env, s) && Running(env, s, c.s) && Fixed(env, cfg, c.s.amx) && Rel(env, cfg, prog, a, c)
    requires Amx.Steps(cfg, prog, n, a) == Amx.Next(b) && NativeAt(prog, b) == Some(p) && Amx.Room(cfg, b, 8) && Foreign(env, p)
    ensures Stops(env, c, d) && d.pc == 183 && 183 < |env.code| && env.code[183] == CallReg(EAX) && d.s.regs.eax == p
    ensures Suspended(env, cfg, prog, Pending(s, Called(env, d.s), Waiting(prog, b), ResumeAt(env, b)))
    ensures Sound(env, cfg, b.mem, Called(env, d.s))
    ensures var x := Called(env, d.s);
            && x.regs.esp == s.regs.esp - 88 && Stored(x.native, x.regs.esp + 4, env.amxPtr) && Stored(x.native, x.regs.esp + 8, Add(env.base, b.stk))
            && x.amx.frm == b.frm && x.amx.stk == b.stk && x.amx.hea == b.hea
    ensures var k := Amx.Find(prog, b.cip); k >= 0 && Waiting(prog, b) == b.(cip := prog[k].address + prog[k].size)
  {
    hide Reaches, RuntimeAt, Addressed, Compiled, Callable, Running, Fixed, Foreign, Rel, CodeAt, Suspended, Amx.Room, NativeAt, Waiting, ResumeAt, Step, Sound, Called;
    RunSimulated(env, cfg, prog, n, a, c);
    var e: Conf :| Matches(env, cfg, prog, c, Amx.Next(b), e);
    assert Addressed(env) by { CompiledParts(env, prog); }
    RuntimeParts(env);
    SysreqPlaced(env);
    ReachesExtent(env, c, e);
    RunningSame(env, s, c.s, e.s);
    assert Fixed(env, cfg, e.s.amx) by { FixedSame(env, cfg, c.s.amx, e.s.amx); }
    d := NativeArrives(env, cfg, prog, s, b, e, p);
    ReachesTrans(env, c, e, d);
    CallStops(env, d.s, 183);
    Receives(env, cfg, prog, s, b, d.s);
  }

  /** What a native function finds: the AMX structure and its parameters as arguments, with FRM,
      STK and HEA up to date. */
  lemma Receives(env: Env, cfg: Amx.Cfg, prog: seq<Amx.Instr>, s: State, b: Amx.State, d: State)
    requires Suspended(env, cfg, prog, Pending(s, Called(env, d), Waiting(prog, b), ResumeAt(env, b)))
    requires NativeAt(prog, b).Some?
    ensures var x := Called(env, d);
            && x.regs.esp == s.regs.esp - 88 && Stored(x.native, x.regs.esp + 4, env.amxPtr) && Stored(x.native, x.regs.esp + 8, Add(env.base, b.stk))
            && x.amx.frm == b.frm && x.amx.stk == b.stk && x.amx.hea == b.hea
    ensures var k := Amx.Find(prog, b.cip); k >= 0 && Waiting(prog, b) == b.(cip := prog[k].address + prog[k].size)
  {
    hide Callable, Running, Called, Add, PtrAt, PcAt;
  }

  lemma CoreParts(env: Env, cfg: Amx.Cfg, b: Amx.State, x: State)
    requires Core(env, cfg, b, x)
    ensures x.regs.esp == Add(env.base, b.stk) && MemRel(env, cfg, b.mem, x.data)
    ensures x.regs.ebp == Add(env.base, b.frm) && x.regs.ecx == b.alt && x.regs.ebx == env.base && x.rib.amx == env.amxPtr
    ensures x.regs.eax == b.pri && x.amx.hea == b.hea
  {
  }

  lemma WaitsThere(env: Env, cfg: Amx.Cfg, prog: seq<Amx.Instr>, s: State, b: Amx.State, x: State, y: State, at: int, p: Word)
    requires Callable(env, s) && Running(env, s, x) && Core(env, cfg, b, x) && Fixed(env, cfg, x.amx) && Amx.Room(cfg, b, 8)
    requires 0 <= at && at + 2 < |env.addrs| && |env.addrs| > 184
    requires ResumeAt(env, b) == at + 2 && PcAt(env, prog, at + 2, Waiting(prog, b).cip)
    requires y == x.(regs := x.regs.(esp := Add(env.base, b.stk - 8)), data := WithCall(x.data, b.stk, p, env.addrs[at + 2]))
    requires y.data.Keys == x.data.Keys && MemRel(env, cfg, b.mem, y.data)
    ensures var n := Called(env, Calling(env, y, s.regs.esp, b.stk, env.addrs[at + 2], p));
            && Suspended(env, cfg, prog, Pending(s, n, Waiting(prog, b), ResumeAt(env, b)))
            && Sound(env, cfg, b.mem, n)
  {
    hide Callable, Running, Fixed, Foreign, WithCall, MemRel, Has4, PcAt, ResumeAt, Add, Stored, Above;
    assert Sub(Add(env.base, b.frm), env.base) == b.frm && Sub(Add(env.base, b.stk), env.base) == b.stk by { HaltFields(env, b.frm, b.stk); }
    assert 104 <= s.regs.esp by { RunningEsp(env, s, x); }
    CoreParts(env, cfg, b, x);
    CallingRuns(env, s, x, y, b.stk, b.frm, env.addrs[at + 2], p);
    CallingStack(env, s, y, b.stk, b.frm, env.addrs[at + 2], p);
    var n := Called(env, Calling(env, y, s.regs.esp, b.stk, env.addrs[at + 2], p));
    FixedSame(env, cfg, x.amx, n.amx);
    assert Apart(env, n) by { RunningEsp(env, s, n); }
    SoundOf(env, cfg, b.mem, n);
  }

  lemma RunningEsp(env: Env, s: State, x: State)
    requires Running(env, s, x)
    ensures 104 <= s.regs.esp && Apart(env, x) && x.rib.amx == env.amxPtr
  {
  }

  lemma SoundOf(env: Env, cfg: Amx.Cfg, m: Amx.Memory, s: State)
    requires s.rib.amx == env.amxPtr && Fixed(env, cfg, s.amx) && MemRel(env, cfg, m, s.data) && Apart(env, s)
    ensures Sound(env, cfg, m, s)
  {
  }

  // ---- a native function returns -------------------------------------------------------------

  /** A native function has just returned: its caller's registers are back, the stack pointer
      is above the return address. */
  ghost predicate NativeReturned(p: Pending, x: State) {
    && Under(p, x) && p.native.regs.esp < M - 4 && x.regs.esp == p.native.regs.esp + 4
    && x.regs.ebx == p.native.regs.ebx && x.regs.esi == p.native.regs.esi
    && x.regs.edi == p.native.regs.edi && x.regs.ebp == p.native.regs.ebp
  }

  /** The AMX state after the call: PRI is the result. */
  function AfterNative(p: Pending, x: State, m: Amx.Memory): Amx.State {
    p.amx.(pri := x.regs.eax, hea := x.amx.hea, mem := Amx.Forget(m, p.amx.stk - 4, p.amx.stk))
  }

  lemma StillRunning(env: Env, cfg: Amx.Cfg, prog: seq<Amx.Instr>, p: Pending, x: State)
    requires Suspended(env, cfg, prog, p) && Under(p, x) && Apart(env, x)
    ensures Running(env, p.exec, x)
    ensures var e := p.exec.regs.esp;
            && Stored(x.native, e - 68, Add(env.base, p.amx.stk)) && Stored(x.native, e - 72, Add(env.base, p.amx.frm))
            && Stored(x.native, e - 76, p.amx.alt) && 8 <= p.amx.stk <= cfg.size
  {
    hide Framed, Apart, Callable, PcAt, Add;
    FramedAbove(env, p.exec, p.native.native, x.native);
  }

  lemma ForgetRel(env: Env, cfg: Amx.Cfg, m: Amx.Memory, d: Data, stk: int, v: Word)
    requires MemRel(env, cfg, m, d) && 4 <= stk <= cfg.size
    ensures MemRel(env, cfg, Amx.Forget(m, stk - 4, stk), Store4(d, stk - 4, v)) && Has4(d, stk - 4)
    ensures Store4(d, stk - 4, v).Keys == d.Keys
  {
    var f := Store4(d, stk - 4, v);
    forall o | !(stk - 4 <= o < stk)
      ensures (o in f <==> o in d) && (o in d ==> f[o] == d[o])
    {
    }
  }

  /** Up to the test of the error code, on the AMX stack again. */
  lemma BackRuns(env: Env, cfg: Amx.Cfg, prog: seq<Amx.Instr>, p: Pending, x: State) returns (y: State)
    requires RuntimeAt(env) && Addressed(env) && Suspended(env, cfg, prog, p) && NativeReturned(p, x)
    requires Apart(env, x) && x.rib.amx == env.amxPtr
    ensures Reaches(env, Conf(x, 184), Conf(y, if x.amx.error != AMX_ERR_NONE then 196 else 194))
    ensures y == x.(regs := y.regs, fl := y.fl) && Running(env, p.exec, y)
    ensures y.regs.eax == x.regs.eax && y.regs.ecx == p.amx.alt && y.regs.ebx == env.base && y.regs.edi == x.amx.error
    ensures y.regs.ebp == Add(env.base, p.amx.frm) && y.regs.esp == Add(env.base, p.amx.stk) && 8 <= p.amx.stk <= cfg.size
    ensures 0 <= p.resume < |env.addrs| && y.regs.esi == env.addrs[p.resume] && PcAt(env, prog, p.resume, p.amx.cip)
    ensures Callable(env, p.exec)
  {
    hide Reaches, RuntimeAt, Addressed, Framed, Apart, Callable, PcAt, Add;
    StillRunning(env, cfg, prog, p, x);
    y := LeaveRuns(env, x, p.exec.regs.esp);
    RunningSame(env, p.exec, x, y);
  }

  lemma AfterCore(env: Env, cfg: Amx.Cfg, p: Pending, x: State, m: Amx.Memory, y: State)
    requires MemRel(env, cfg, Amx.Forget(m, p.amx.stk - 4, p.amx.stk), y.data) && y.rib.amx == env.amxPtr
    requires y.amx == x.amx && x.amx.stp == cfg.stp
    requires y.regs.eax == x.regs.eax && y.regs.ecx == p.amx.alt && y.regs.ebx == env.base
    requires y.regs.ebp == Add(env.base, p.amx.frm) && y.regs.esp == Add(env.base, p.amx.stk)
    ensures Core(env, cfg, AfterNative(p, x, m), y)
  {
    hide MemRel, Amx.Forget;
  }

  /** Without an error, compiled code goes on behind the call. */
  lemma NativeResumes(env: Env, cfg: Amx.Cfg, prog: seq<Amx.Instr>, p: Pending, x: State, m: Amx.Memory) returns (y: State)
    requires RuntimeAt(env) && Addressed(env) && Suspended(env, cfg, prog, p) && NativeReturned(p, x)
    requires Sound(env, cfg, m, x) && x.amx.error == AMX_ERR_NONE
    ensures Reaches(env, Conf(x, 184), Conf(y, p.resume)) && Rel(env, cfg, prog, AfterNative(p, x, m), Conf(y, p.resume))
    ensures Running(env, p.exec, y) && Fixed(env, cfg, y.amx) && Callable(env, p.exec) && y.amx.error == AMX_ERR_NONE
    ensures y.regs.eax == x.regs.eax && y.regs.ecx == p.amx.alt && y.regs.ebp == Add(env.base, p.amx.frm) && y.regs.esp == Add(env.base, p.amx.stk)
  {
    hide Reaches, RuntimeAt, Addressed, Framed, Apart, Callable, PcAt, Add, MemRel, Amx.Forget, Core, Suspended, NativeReturned, Store4, Has4, Running, CodeAt, Step;
    RuntimeParts(env);
    SysreqPlaced(env);
    LeavePlaced(env);
    var x1 := BackRuns(env, cfg, prog, p, x);
    ForgetRel(env, cfg, m, x.data, p.amx.stk, env.addrs[p.resume]);
    ResumeRuns(env, x1, p.amx.stk, p.resume);
    y := x1.(data := Store4(x.data, p.amx.stk - 4, env.addrs[p.resume]));
    ReachesTrans(env, Conf(x, 184), Conf(x1, 194), Conf(y, p.resume));
    RunningSame(env, p.exec, x1, y);
    AfterCore(env, cfg, p, x, m, y);
    FixedSame(env, cfg, x.amx, y.amx);
  }

  /** With an error, HaltHelper is called in the native function's name. */
  lemma NativeStops(env: Env, cfg: Amx.Cfg, prog: seq<Amx.Instr>, p: Pending, x: State, m: Amx.Memory) returns (z: State)
    requires RuntimeAt(env) && Addressed(env) && Suspended(env, cfg, prog, p) && NativeReturned(p, x)
    requires Sound(env, cfg, m, x) && x.amx.error != AMX_ERR_NONE
    ensures Reaches(env, Conf(x, 184), Conf(z, 133)) && Running(env, p.exec, z) && Callable(env, p.exec)
    ensures AtHalt(env, cfg, AfterNative(p, x, m), x.amx.error, Conf(z, 133)) && z.amx == x.amx
    ensures MemRel(env, cfg, Amx.Forget(m, p.amx.stk - 4, p.amx.stk), z.data)
  {
    hide Reaches, RuntimeAt, Addressed, Framed, Apart, Callable, PcAt, Add, MemRel, Amx.Forget, Core, Suspended, NativeReturned, Store4, Has4, Running, CodeAt, Step, AtHalt;
    RuntimeParts(env);
    SysreqPlaced(env);
    LeavePlaced(env);
    var x1 := BackRuns(env, cfg, prog, p, x);
    ForgetRel(env, cfg, m, x.data, p.amx.stk, env.addrs[197]);
    StoreHas(x.data, p.amx.stk - 4, env.addrs[197], p.amx.stk - 4);
    CallOnData(env, x1, 196, ToHelper(HaltHelper), 133, p.amx.stk);
    z := x1.(regs := x1.regs.(esp := Add(env.base, p.amx.stk - 4)), data := Store4(x.data, p.amx.stk - 4, env.addrs[197]));
    ReachesTrans(env, Conf(x, 184), Conf(x1, 196), Conf(z, 133));
    RunningSame(env, p.exec, x1, z);
    HaltsThere(env, cfg, p, x, m, z);
  }

  lemma NativeHalts(env: Env, cfg: Amx.Cfg, prog: seq<Amx.Instr>, p: Pending, x: State, m: Amx.Memory) returns (y: State)
    requires RuntimeAt(env) && Addressed(env) && HelpersPlaced(env) && Consistent(env, cfg)
    requires Suspended(env, cfg, prog, p) && NativeReturned(p, x) && Sound(env, cfg, m, x) && x.amx.error != AMX_ERR_NONE
    ensures Reaches(env, Conf(x, 184), Conf(y, 122)) && Running(env, p.exec, y) && Fixed(env, cfg, y.amx) && Callable(env, p.exec)
    ensures y.regs.eax == x.regs.eax && y.amx.error == x.amx.error && HoldsRegs(y.amx, AfterNative(p, x, m))
    ensures MemRel(env, cfg, Amx.Forget(m, p.amx.stk - 4, p.amx.stk), y.data)
  {
    hide Reaches, RuntimeAt, Addressed, Callable, MemRel, Amx.Forget, Suspended, NativeReturned, Running, AtHalt, HelpersPlaced, Effects, Consistent;
    RuntimeParts(env);
    var z := NativeStops(env, cfg, prog, p, x, m);
    y := HaltEffects(env, cfg, AfterNative(p, x, m), x.amx.error, Conf(z, 133));
    HaltReaches(env, z, y);
    ReachesTrans(env, Conf(x, 184), Conf(z, 133), Conf(y, 122));
    RunningSame(env, p.exec, z, y);
    assert Fixed(env, cfg, x.amx);
    FixedSame(env, cfg, x.amx, y.amx);
  }

  lemma HaltsThere(env: Env, cfg: Amx.Cfg, p: Pending, x: State, m: Amx.Memory, z: State)
    requires HaltHelper in env.helpers && env.helpers[HaltHelper] == 133 && 8 <= p.amx.stk
    requires MemRel(env, cfg, Amx.Forget(m, p.amx.stk - 4, p.amx.stk), z.data) && z.rib.amx == env.amxPtr && Has4(z.data, p.amx.stk - 4)
    requires z.amx == x.amx && x.amx.stp == cfg.stp && z.regs.edi == x.amx.error
    requires z.regs.eax == x.regs.eax && z.regs.ecx == p.amx.alt && z.regs.ebx == env.base
    requires z.regs.ebp == Add(env.base, p.amx.frm) && z.regs.esp == Add(env.base, p.amx.stk - 4)
    ensures AtHalt(env, cfg, AfterNative(p, x, m), x.amx.error, Conf(z, 133))
  {
    hide MemRel, Amx.Forget, Core, Has4;
    AfterCore(env, cfg, p, x, m, SetReg(z, ESP, Add(env.base, p.amx.stk)));
    assert Sub(Add(env.base, p.amx.stk), 4) == Add(env.base, p.amx.stk - 4);
  }

  // ---- events --------------------------------------------------------------------------------

  /** C code works on: it may change registers, data and the AMX structure, and native memory
      except what a pending native function must leave alone. */
  ghost predicate Works(env: Env, cfg: Amx.Cfg, w: World, v: World) {
    && v.calls == w.calls && Sound(env, cfg, v.mem, v.s) && v.s.rib == w.s.rib
    && (|w.calls| > 0 ==> Respects(w.calls[0].native, v.s.native))
  }

  /** The code address of the public function that a call of Exec names. */
  function Callee(env: Env, s: State): Word {
    if s.regs.esp < M - 4 && s.regs.esp + 4 in s.native then Public(env, s.native[s.regs.esp + 4]) else 0
  }

  /** The AMX state in which a call of Exec starts the function. */
  function Entry(env: Env, cfg: Amx.Cfg, s: State, m: Amx.Memory): Option<Amx.State> {
    if s.amx.stk < 8 then None
    else EntryState(cfg, s.amx, m, Lookup(env.table, Callee(env, s)), Add(Add(s.amx.stk - 4, env.base), M - 4), Callee(env, s))
  }

  /** What the world is after a run under the call of Exec made in state s: the machine left
      the assembled code at d, the AMX run ended in o, and rest are the calls pending below. */
  ghost predicate Yields(env: Env, prog: seq<Amx.Instr>, s: State, o: Amx.Outcome, d: Conf, rest: seq<Pending>, v: World) {
    match o
    case Done(b) => v == World(Back(d.s), b.mem, rest)
    case Halted(h, _) => v == World(Back(d.s), h.mem, rest)
    case Next(b) => v == World(Called(env, d.s), b.mem, [Pending(s, Called(env, d.s), Waiting(prog, b), ResumeAt(env, b))] + rest)
    case Stuck => false
  }

  /** C code calls Exec, and the machine runs until it is back in C code. */
  ghost predicate CallsExec(env: Env, cfg: Amx.Cfg, prog: seq<Amx.Instr>, w: World, d: Conf, o: Amx.Outcome, v: World) {
    && Callable(env, w.s) && (|w.calls| > 0 ==> CallsFrom(w.calls[0], w.s))
    && Stops(env, Conf(w.s, 0), d)
    && if ExecError(env, w.s) != AMX_ERR_NONE then v == World(Back(d.s), w.mem, w.calls)
       else
         && 8 <= w.s.amx.stk <= cfg.size && Amx.Find(prog, Callee(env, w.s)) >= 0 && Entry(env, cfg, w.s, w.mem).Some?
         && Finishes(env, cfg, prog, Entry(env, cfg, w.s, w.mem).value, o)
         && Yields(env, prog, w.s, o, d, w.calls, v)
  }

  /** The native function of calls[0] returns, and the machine runs until it is back in C code. */
  ghost predicate NativeReturns(env: Env, cfg: Amx.Cfg, prog: seq<Amx.Instr>, w: World, d: Conf, o: Amx.Outcome, v: World) {
    && |w.calls| > 0 && NativeReturned(w.calls[0], w.s) && Stops(env, Conf(w.s, 184), d)
    && var b := AfterNative(w.calls[0], w.s, w.mem);
    && (if w.s.amx.error != AMX_ERR_NONE then o == Amx.Halted(b, w.s.amx.error) else Finishes(env, cfg, prog, b, o))
    && Yields(env, prog, w.calls[0].exec, o, d, w.calls[1..], v)
  }

  /** C code t runs after the call of Exec that was made in state s: the stack pointer is above
      the return address, the callee-saved registers and the whole runtime block are as they
      were, and of the caller's words only the one for the result may have changed. */
  ghost predicate Completed(s: State, t: State) {
    && s.regs.esp < M - 4 && t.regs.esp == s.regs.esp + 4
    && t.regs.ebx == s.regs.ebx && t.regs.esi == s.regs.esi && t.regs.edi == s.regs.edi && t.regs.ebp == s.regs.ebp
    && t.rib == s.rib
    && t.native.Keys == s.native.Keys
    && forall k :: k in s.native && k >= s.regs.esp && (ResultPtr(s) == 0 || k != ResultPtr(s)) ==> t.native[k] == s.native[k]
  }

  /** The machine is at Exec's ret, with its own caller's return address on top of the stack. */
  ghost predicate AtReturn(env: Env, s: State, d: Conf) {
    && 0 <= d.pc < |env.code| && env.code[d.pc] == Ret
    && d.s.regs.esp == s.regs.esp && s.regs.esp in s.native && s.regs.esp in d.s.native
    && d.s.native[s.regs.esp] == s.native[s.regs.esp]
  }

  /** The machine is at the call of the native function. */
  ghost predicate AtCall(env: Env, d: Conf, p: Word) {
    0 <= d.pc < |env.code| && env.code[d.pc] == CallReg(EAX) && d.s.regs.eax == p
  }

  // ---- what every event keeps ------------------------------------------------------------------

  ghost predicate Ready(env: Env, cfg: Amx.Cfg, prog: seq<Amx.Instr>) {
    Compiled(env, prog) && RuntimeAt(env) && Consistent(env, cfg)
  }

  /** The end of a run under the call of Exec made in state s. */
  ghost predicate Ended(env: Env, cfg: Amx.Cfg, prog: seq<Amx.Instr>, s: State, o: Amx.Outcome, d: Conf, rest: seq<Pending>, v: World) {
    && Sound(env, cfg, v.mem, v.s)
    && if o.Next?
       then
         && NativeAt(prog, o.s).Some? && AtCall(env, d, NativeAt(prog, o.s).value)
         && |v.calls| == |rest| + 1 && v.calls[1..] == rest && v.calls[0].exec == s && v.calls[0].native == v.s
         && Suspended(env, cfg, prog, v.calls[0])
       else
         && v.calls == rest && AtReturn(env, s, d) && Completed(s, v.s) && v.s.amx.error == AMX_ERR_NONE
         && (o.Done? ==> HoldsRegs(v.s.amx, o.d)) && (o.Halted? ==> HoldsRegs(v.s.amx, o.h))
  }

  /** eax holds the error code, the caller's result word PRI. */
  ghost predicate Reports(s: State, t: State, result: Word, error: Word) {
    t.regs.eax == error && (ResultPtr(s) != 0 ==> ResultPtr(s) in t.native && t.native[ResultPtr(s)] == result)
  }

  lemma LeavesBack(env: Env, cfg: Amx.Cfg, s: State, d: Conf, m: Amx.Memory, b: Amx.State, error: Word)
    requires Callable(env, s) && Leaves(env, cfg, s, d, m, b, error)
    ensures Sound(env, cfg, m, Back(d.s)) && AtReturn(env, s, d) && Completed(s, Back(d.s)) && Reports(s, Back(d.s), b.pri, error)
    ensures HoldsRegs(Back(d.s).amx, b) && Back(d.s).amx.error == AMX_ERR_NONE
  {
    hide Foreign, MemRel, DataPointer;
    assert Apart(env, Back(d.s)) by { ApartSame(env, d.s, Back(d.s)); }
    hide Apart;
    assert s.regs.esp in s.native;
    assert ResultPtr(s) != 0 ==> ResultPtr(s) in s.native && ResultPtr(s) >= s.regs.esp;
  }

  /** The results of a run that ends in a return or a halt. */
  function ResultOf(o: Amx.Outcome): Word {
    match o
    case Done(b) => b.pri
    case Halted(h, _) => h.pri
    case Next(_) => 0
    case Stuck => 0
  }

  function ErrorOf(o: Amx.Outcome): Word { if o.Halted? then o.error else AMX_ERR_NONE }

  /** Compiled code that starts at c under a call of Exec ends as its AMX run does. */
  lemma SegmentEnds(env: Env, cfg: Amx.Cfg, prog: seq<Amx.Instr>, s: State, c0: Conf, c: Conf, a: Amx.State, o: Amx.Outcome, d: Conf,
                    rest: seq<Pending>, v: World)
    requires Ready(env, cfg, prog) && Callable(env, s) && Running(env, s, c.s) && Fixed(env, cfg, c.s.amx) && Rel(env, cfg, prog, a, c)
    requires c.s.amx.error == AMX_ERR_NONE
    requires Finishes(env, cfg, prog, a, o) && Reaches(env, c0, c) && Stops(env, c0, d) && Yields(env, prog, s, o, d, rest, v)
    ensures Ended(env, cfg, prog, s, o, d, rest, v)
    ensures !o.Next? ==> Reports(s, v.s, ResultOf(o), ErrorOf(o))
  {
    hide Reaches, Step, Running, Fixed, Rel, Callable, Suspended, Sound, NativeAt, Amx.Room, Foreign, Waiting, ResumeAt, Called, Back, Leaves, RuntimeAt, Compiled, Completed, Reports, Consistent;
    var n: nat :| Amx.Steps(cfg, prog, n, a) == o;
    match o
    case Done(b) =>
      var e := RunReturns(env, cfg, prog, s, c, a, n, b);
      LeavesBack(env, cfg, s, e, b.mem, b, c.s.amx.error);
      SameStop(env, c0, c, d, e);
    case Halted(h, err) =>
      var e := RunHalts(env, cfg, prog, s, c, a, n, h, err);
      LeavesBack(env, cfg, s, e, h.mem, h, err);
      SameStop(env, c0, c, d, e);
    case Next(b) =>
      var e := RunCalls(env, cfg, prog, s, c, a, n, b, NativeAt(prog, b).value);
      SameStop(env, c0, c, d, e);
  }

  lemma SameStop(env: Env, c0: Conf, c: Conf, d: Conf, e: Conf)
    requires Reaches(env, c0, c) && Stops(env, c0, d) && Stops(env, c, e)
    ensures d == e
  {
    hide Reaches, Step;
    ReachesTrans(env, c0, c, e);
    StopsOnce(env, c0, d, e);
  }

  /** C code that made a call of Exec on behalf of a pending native function still runs on its
      behalf. */
  lemma StillUnder(p: Pending, s: State, t: State)
    requires CallsFrom(p, s) && Completed(s, t)
    ensures Under(p, t)
  {
  }

  lemma InvAfter(env: Env, cfg: Amx.Cfg, prog: seq<Amx.Instr>, s: State, o: Amx.Outcome, d: Conf, rest: seq<Pending>, v: World)
    requires Ended(env, cfg, prog, s, o, d, rest, v)
    requires forall i :: 0 <= i < |rest| ==> Suspended(env, cfg, prog, rest[i])
    requires forall i :: 0 <= i < |rest| - 1 ==> Linked(rest, i)
    requires |rest| > 0 ==> CallsFrom(rest[0], s)
    ensures Inv(env, cfg, prog, v)
  {
    hide Suspended, Sound, CallsFrom, Completed, AtReturn;
    if o.Next? {
      forall i | 0 <= i < |v.calls|
        ensures Suspended(env, cfg, prog, v.calls[i])
      {
        if i > 0 { assert v.calls[i] == rest[i - 1]; }
      }
      forall i | 0 <= i < |v.calls| - 1
        ensures Linked(v.calls, i)
      {
        if i > 0 {
          assert v.calls[i] == rest[i - 1] && v.calls[i + 1] == rest[i - 1 + 1];
          assert Linked(rest, i - 1);
        } else {
          assert v.calls[1] == rest[0];
        }
      }
      assert Under(v.calls[0], v.s);
    } else if |rest| > 0 {
      StillUnder(rest[0], s, v.s);
    }
  }

  lemma ReadyParts(env: Env, cfg: Amx.Cfg, prog: seq<Amx.Instr>)
    requires Ready(env, cfg, prog)
    ensures Addressed(env) && HelpersPlaced(env) && CodeAt(env, 0, EXEC)
  {
    hide CodeAt;
    CompiledParts(env, prog);
    RuntimeParts(env);
    CompiledHelpers(env, prog);
  }

  lemma CompiledHelpers(env: Env, prog: seq<Amx.Instr>)
    requires Compiled(env, prog)
    ensures HelpersPlaced(env)
  {
  }

  lemma FailedBack(env: Env, cfg: Amx.Cfg, m: Amx.Memory, s: State, y: State)
    requires Callable(env, s) && Sound(env, cfg, m, s) && Failed(env, s, y) && 70 < |env.code| && env.code[70] == Ret
    ensures Sound(env, cfg, m, Back(y)) && AtReturn(env, s, Conf(y, 70)) && Completed(s, Back(y)) && Back(y).regs.eax == ExecError(env, s)
    ensures Step(env, Conf(y, 70)).None?
  {
    hide Foreign, MemRel, ExecError, ResultPtr, Step;
    ApartSame(env, s, y);
    assert s.regs.esp in s.native;
    RetStops(env, y, 70);
    ApartSame(env, s, Back(y));
  }

  /** A call of Exec that runs nothing. */
  lemma FailingCall(env: Env, cfg: Amx.Cfg, prog: seq<Amx.Instr>, w: World, d: Conf, o: Amx.Outcome, v: World)
    requires Ready(env, cfg, prog) && Inv(env, cfg, prog, w) && CallsExec(env, cfg, prog, w, d, o, v)
    requires ExecError(env, w.s) != AMX_ERR_NONE
    ensures Inv(env, cfg, prog, v) && AtReturn(env, w.s, d) && Completed(w.s, v.s)
    ensures v.calls == w.calls && v.s.regs.eax == ExecError(env, w.s)
  {
    hide Reaches, Step, Failed, ExecError, Suspended, Completed, CallsFrom, Back, Ready, AtReturn;
    ReadyParts(env, cfg, prog);
    var y := ExecFails(env, w.s);
    FailedBack(env, cfg, w.mem, w.s, y);
    StopsOnce(env, Conf(w.s, 0), d, Conf(y, 70));
    if |w.calls| > 0 { StillUnder(w.calls[0], w.s, v.s); }
  }

  /** A call of Exec that runs the public function: to its end, or to the call of a native
      function. */
  lemma RunningCall(env: Env, cfg: Amx.Cfg, prog: seq<Amx.Instr>, w: World, d: Conf, o: Amx.Outcome, v: World)
    requires Ready(env, cfg, prog) && Inv(env, cfg, prog, w) && CallsExec(env, cfg, prog, w, d, o, v)
    requires ExecError(env, w.s) == AMX_ERR_NONE
    ensures Inv(env, cfg, prog, v) && Ended(env, cfg, prog, w.s, o, d, w.calls, v)
    ensures !o.Next? ==> Reports(w.s, v.s, ResultOf(o), ErrorOf(o))
  {
    hide Reaches, Step, ExecError, Suspended, Completed, CallsFrom, Back, AtReturn, Finishes, Yields, Reports, Running, Rel, Compiled, RuntimeAt, Ended, Linked, Under, MemRel, Apart, Foreign, DataPointer, EntryState;
    var y, a := ExecEnters(env, cfg, prog, w.mem, w.s);
    var c := Conf(y, env.labels[Callee(env, w.s)]);
    assert Entry(env, cfg, w.s, w.mem) == Some(a);
    FixedSame(env, cfg, w.s.amx, y.amx);
    SegmentEnds(env, cfg, prog, w.s, Conf(w.s, 0), c, a, o, d, w.calls, v);
    InvAfter(env, cfg, prog, w.s, o, d, w.calls, v);
  }

  /** A native function returns with an error: the run that called it is halted. */
  lemma ErrorReturn(env: Env, cfg: Amx.Cfg, prog: seq<Amx.Instr>, w: World, d: Conf, o: Amx.Outcome, v: World)
    requires Ready(env, cfg, prog) && Inv(env, cfg, prog, w) && NativeReturns(env, cfg, prog, w, d, o, v)
    requires w.s.amx.error != AMX_ERR_NONE
    ensures Ended(env, cfg, prog, w.calls[0].exec, o, d, w.calls[1..], v)
    ensures Reports(w.calls[0].exec, v.s, ResultOf(o), ErrorOf(o)) && o.Halted?
  {
    hide Reaches, Step, Suspended, Completed, Back, AtReturn, Reports, Running, Callable, Leaves, Ready, Linked, NativeReturned, MemRel, Sound;
    ReadyParts(env, cfg, prog);
    assert Consistent(env, cfg) && RuntimeAt(env) by { ReadyMore(env, cfg, prog); }
    var p := w.calls[0];
    var y := NativeHalts(env, cfg, prog, p, w.s, w.mem);
    var m := Amx.Forget(w.mem, p.amx.stk - 4, p.amx.stk);
    var b := AfterNative(p, w.s, w.mem);
    var e := ExitLeaves(env, cfg, p.exec, Conf(w.s, 184), y, m, b);
    LeavesBack(env, cfg, p.exec, e, m, b, w.s.amx.error);
    StopsOnce(env, Conf(w.s, 184), d, e);
  }

  lemma ReadyMore(env: Env, cfg: Amx.Cfg, prog: seq<Amx.Instr>)
    requires Ready(env, cfg, prog)
    ensures Consistent(env, cfg) && RuntimeAt(env)
  {
  }

  /** A native function returns, and compiled code goes on. */
  lemma PlainReturn(env: Env, cfg: Amx.Cfg, prog: seq<Amx.Instr>, w: World, d: Conf, o: Amx.Outcome, v: World)
    requires Ready(env, cfg, prog) && Inv(env, cfg, prog, w) && NativeReturns(env, cfg, prog, w, d, o, v)
    requires w.s.amx.error == AMX_ERR_NONE
    ensures Ended(env, cfg, prog, w.calls[0].exec, o, d, w.calls[1..], v)
    ensures !o.Next? ==> Reports(w.calls[0].exec, v.s, ResultOf(o), ErrorOf(o))
  {
    hide Reaches, Step, Suspended, Completed, Back, AtReturn, Reports, Running, Callable, Ready, Linked, NativeReturned, MemRel, Sound, Rel, Yields, Finishes, Ended;
    ReadyParts(env, cfg, prog);
    ReadyMore(env, cfg, prog);
    var p := w.calls[0];
    var y := NativeResumes(env, cfg, prog, p, w.s, w.mem);
    SegmentEnds(env, cfg, prog, p.exec, Conf(w.s, 184), Conf(y, p.resume), AfterNative(p, w.s, w.mem), o, d, w.calls[1..], v);
  }

  lemma ReturnKeeps(env: Env, cfg: Amx.Cfg, prog: seq<Amx.Instr>, w: World, d: Conf, o: Amx.Outcome, v: World)
    requires Ready(env, cfg, prog) && Inv(env, cfg, prog, w) && NativeReturns(env, cfg, prog, w, d, o, v)
    ensures Inv(env, cfg, prog, v) && Ended(env, cfg, prog, w.calls[0].exec, o, d, w.calls[1..], v)
    ensures !o.Next? ==> Reports(w.calls[0].exec, v.s, ResultOf(o), ErrorOf(o))
  {
    hide Reaches, Step, Suspended, CallsFrom, Reports, Ready, Sound, NativeReturned, Yields, Finishes, Ended, Stops;
    if w.s.amx.error != AMX_ERR_NONE { ErrorReturn(env, cfg, prog, w, d, o, v); } else { PlainReturn(env, cfg, prog, w, d, o, v); }
    var rest := w.calls[1..];
    forall i | 0 <= i < |rest| - 1
      ensures Linked(rest, i)
    {
      assert rest[i] == w.calls[i + 1] && rest[i + 1] == w.calls[i + 1 + 1];
      assert Linked(w.calls, i + 1);
    }
    if |rest| > 0 { assert Linked(w.calls, 0); }
    InvAfter(env, cfg, prog, w.calls[0].exec, o, d, rest, v);
  }

  // ---- whole runs ------------------------------------------------------------------------------

  datatype Event = Work | CallEvent(d: Conf, o: Amx.Outcome) | ReturnEvent(d: Conf, o: Amx.Outcome)

  ghost predicate Happens(env: Env, cfg: Amx.Cfg, prog: seq<Amx.Instr>, w: World, e: Event, v: World) {
    match e
    case Work => Works(env, cfg, w, v)
    case CallEvent(d, o) => CallsExec(env, cfg, prog, w, d, o, v)
    case ReturnEvent(d, o) => NativeReturns(env, cfg, prog, w, d, o, v)
  }

  /** A run from t[0]: event k leads from t[k] to t[k + 1]. */
  ghost predicate History(env: Env, cfg: Amx.Cfg, prog: seq<Amx.Instr>, t: seq<World>, es: seq<Event>) {
    && |t| == |es| + 1
    && forall k :: 0 <= k < |es| ==> Happens(env, cfg, prog, t[k], es[k], t[k + 1])
  }

  /** Every event keeps every pending call resumable. */
  lemma EventKeeps(env: Env, cfg: Amx.Cfg, prog: seq<Amx.Instr>, w: World, e: Event, v: World)
    requires Ready(env, cfg, prog) && Inv(env, cfg, prog, w) && Happens(env, cfg, prog, w, e, v)
    ensures Inv(env, cfg, prog, v)
  {
    hide Ready, Suspended, Sound, CallsExec, NativeReturns, Ended, Completed, Reports;
    match e
    case Work =>
      if |w.calls| > 0 { WorkKeeps(env, cfg, prog, w, v); }
    case CallEvent(d, o) =>
      if ExecError(env, w.s) != AMX_ERR_NONE { FailingCall(env, cfg, prog, w, d, o, v); } else { RunningCall(env, cfg, prog, w, d, o, v); }
    case ReturnEvent(d, o) =>
      ReturnKeeps(env, cfg, prog, w, d, o, v);
  }

  lemma WorkKeeps(env: Env, cfg: Amx.Cfg, prog: seq<Amx.Instr>, w: World, v: World)
    requires Inv(env, cfg, prog, w) && Works(env, cfg, w, v) && |w.calls| > 0
    ensures Inv(env, cfg, prog, v)
  {
    hide Suspended, Sound, Linked;
    assert forall i :: 0 <= i < |v.calls| - 1 ==> Linked(w.calls, i);
  }

  lemma {:induction false} HistoryKeeps(env: Env, cfg: Amx.Cfg, prog: seq<Amx.Instr>, t: seq<World>, es: seq<Event>, k: nat)
    requires Ready(env, cfg, prog) && History(env, cfg, prog, t, es) && Inv(env, cfg, prog, t[0]) && k < |t|
    ensures Inv(env, cfg, prog, t[k])
  {
    hide Ready, Inv, Happens;
    if k > 0 {
      HistoryKeeps(env, cfg, prog, t, es, k - 1);
      EventKeeps(env, cfg, prog, t[k - 1], es[k - 1], t[k - 1 + 1]);
    }
  }

  /** The call of Exec made at step i is active after step k: calls pend above those that pended
      when it was made, and the lowest of them runs under that very call. */
  ghost predicate Active(t: seq<World>, i: int, k: int)
    requires 0 <= i < |t| && 0 <= k < |t|
  {
    var n, m := |t[k].calls|, |t[i].calls|;
    n > m && t[k].calls[n - m..] == t[i].calls && t[k].calls[n - m - 1].exec == t[i].s
  }

  lemma Pushes(t: seq<World>, i: int, k: int, c: Pending)
    requires 0 <= i <= k < |t| - 1 && (k == i || Active(t, i, k))
    requires t[k + 1].calls == [c] + t[k].calls && (k == i ==> c.exec == t[i].s)
    ensures Active(t, i, k + 1)
  {
    var n, m := |t[k].calls|, |t[i].calls|;
    assert t[k + 1].calls[n + 1 - m..] == t[k].calls[n - m..];
  }

  lemma Replaces(t: seq<World>, i: int, k: int, c: Pending)
    requires 0 <= i < k < |t| - 1 && Active(t, i, k)
    requires t[k + 1].calls == [c] + t[k].calls[1..] && c.exec == t[k].calls[0].exec
    ensures Active(t, i, k + 1)
  {
    var n, m := |t[k].calls|, |t[i].calls|;
    assert t[k + 1].calls[n - m..] == t[k].calls[n - m..];
  }

  lemma Drops(t: seq<World>, i: int, k: int)
    requires 0 <= i < k < |t| - 1 && Active(t, i, k) && t[k + 1].calls == t[k].calls[1..]
    ensures |t[k + 1].calls| > |t[i].calls| ==> Active(t, i, k + 1)
    ensures |t[k + 1].calls| == |t[i].calls| ==> t[k + 1].calls == t[i].calls && t[k].calls[0].exec == t[i].s
  {
    var n, m := |t[k].calls|, |t[i].calls|;
    if n - m > 1 { assert t[k + 1].calls[n - 1 - m..] == t[k].calls[n - m..]; }
  }

  /** What one event does to the pending calls, and how an Exec that returns returns. */
  ghost predicate Affects(env: Env, w: World, e: Event, v: World) {
    match e
    case Work => v.calls == w.calls
    case CallEvent(d, o) =>
      || (v.calls == w.calls && AtReturn(env, w.s, d) && Completed(w.s, v.s))
      || (|v.calls| > 0 && v.calls == [v.calls[0]] + w.calls && v.calls[0].exec == w.s)
    case ReturnEvent(d, o) =>
      |w.calls| > 0
      && ((v.calls == w.calls[1..] && AtReturn(env, w.calls[0].exec, d) && Completed(w.calls[0].exec, v.s))
          || (|v.calls| > 0 && v.calls == [v.calls[0]] + w.calls[1..] && v.calls[0].exec == w.calls[0].exec))
  }

  lemma EventEffect(env: Env, cfg: Amx.Cfg, prog: seq<Amx.Instr>, w: World, e: Event, v: World)
    requires Ready(env, cfg, prog) && Inv(env, cfg, prog, w) && Happens(env, cfg, prog, w, e, v)
    ensures Affects(env, w, e, v)
  {
    hide Ready, Suspended, Sound, CallsExec, Completed, Reports, AtReturn, AtCall, ExecError;
    match e
    case Work =>
    case CallEvent(d, o) =>
      if ExecError(env, w.s) != AMX_ERR_NONE { FailingCall(env, cfg, prog, w, d, o, v); } else { RunningCall(env, cfg, prog, w, d, o, v); }
    case ReturnEvent(d, o) =>
      ReturnKeeps(env, cfg, prog, w, d, o, v);
  }

  /** While more calls pend than when Exec was called at step i, that call is active. */
  lemma {:induction false} StaysActive(env: Env, cfg: Amx.Cfg, prog: seq<Amx.Instr>, t: seq<World>, es: seq<Event>, i: nat, k: nat)
    requires Ready(env, cfg, prog) && History(env, cfg, prog, t, es) && Inv(env, cfg, prog, t[0])
    requires i < k < |t| && es[i].CallEvent?
    requires forall j :: i < j <= k ==> |t[j].calls| > |t[i].calls|
    ensures Active(t, i, k)
    decreases k
  {
    hide Ready, Inv, Happens, AtReturn, Completed;
    HistoryKeeps(env, cfg, prog, t, es, k - 1);
    if k - 1 > i { StaysActive(env, cfg, prog, t, es, i, k - 1); }
    assert |t[k - 1 + 1].calls| > |t[i].calls|;
    EventEffect(env, cfg, prog, t[k - 1], es[k - 1], t[k - 1 + 1]);
    match es[k - 1]
    case Work =>
    case CallEvent(_, _) =>
      if t[k].calls != t[k - 1].calls { Pushes(t, i, k - 1, t[k].calls[0]); }
    case ReturnEvent(_, _) =>
      if t[k].calls == t[k - 1].calls[1..] { Drops(t, i, k - 1); } else { Replaces(t, i, k - 1, t[k].calls[0]); }
  }

  /** The machine state in which the assembled code was left at an event. */
  function Exit(e: Event): Conf
    requires !e.Work?
  {
    e.d
  }

  /** Nested execution discipline: the first time after a call of Exec that no more calls pend
      than when it was made, the machine is at Exec's ret with that caller's return address on
      top, and the caller finds its registers, its stack and the whole runtime block as they
      were. This holds whatever happened in between: any nesting of native functions and calls
      of Exec, runs that return, runs that are halted at any depth. */
  lemma CallReturns(env: Env, cfg: Amx.Cfg, prog: seq<Amx.Instr>, t: seq<World>, es: seq<Event>, i: nat, k: nat)
    requires Ready(env, cfg, prog) && History(env, cfg, prog, t, es) && Inv(env, cfg, prog, t[0])
    requires i < k < |t| && es[i].CallEvent?
    requires forall j :: i < j < k ==> |t[j].calls| > |t[i].calls|
    requires |t[k].calls| == |t[i].calls|
    ensures t[k].calls == t[i].calls && Completed(t[i].s, t[k].s)
    ensures !es[k - 1].Work? && AtReturn(env, t[i].s, Exit(es[k - 1]))
  {
    hide Ready, Inv, Happens, AtReturn, Completed;
    HistoryKeeps(env, cfg, prog, t, es, k - 1);
    if k - 1 > i { StaysActive(env, cfg, prog, t, es, i, k - 1); }
    assert |t[k - 1 + 1].calls| == |t[i].calls|;
    EventEffect(env, cfg, prog, t[k - 1], es[k - 1], t[k - 1 + 1]);
    if es[k - 1].ReturnEvent? { Drops(t, i, k - 1); }
  }
}
