/** The two halves together: what the compiler emits for a program runs as the program does. */
module Correctness {
  import opened Word32
  import Amx
  import opened X86
  import opened Disasm
  import opened Relation
  import opened Layout
  import opened SimControl
  import opened Simulation
  import opened Compiler
  import opened Nesting
  import opened Opcodes
  import opened Emit
  import opened ExecRuns

  /** The image of a program at its addresses. */
  ghost predicate ImageOf(p: Program, prog: seq<Amx.Instr>, env: Env) {
    && Parse(p) == Some(prog) && TargetsKnown(prog) && Addressed(env)
    && exists align: int -> nat, host: Env :: env == Assemble(prog, align, env.addrs, host)
  }

  lemma ImageIsCompiled(p: Program, prog: seq<Amx.Instr>, env: Env)
    requires ImageOf(p, prog, env)
    ensures Compiled(env, prog) && RuntimeAt(env)
  {
    hide Compiled, RuntimeAt, Parse, TargetsKnown, Assemble, Addressed;
    var align: int -> nat, host: Env :| env == Assemble(prog, align, env.addrs, host);
    ParseOrdered(p, prog);
    AssembleIsCompiled(prog, align, env.addrs, host);
  }

  /** Every step of a program that parses is matched by the code assembled for it. */
  lemma ProgramStepSimulated(p: Program, prog: seq<Amx.Instr>, env: Env, cfg: Amx.Cfg, a: Amx.State, c: Conf)
    requires ImageOf(p, prog, env) && Consistent(env, cfg) && Rel(env, cfg, prog, a, c)
    ensures Matched(env, cfg, prog, c, Amx.Step(cfg, prog, a))
  {
    hide ImageOf, Compiled, RuntimeAt, Rel, Matched, Consistent;
    ImageIsCompiled(p, prog, env);
    StepSimulated(env, cfg, prog, a, c);
  }

  /** So is every run. */
  lemma ProgramSimulated(p: Program, prog: seq<Amx.Instr>, env: Env, cfg: Amx.Cfg, n: nat, a: Amx.State, c: Conf)
    requires ImageOf(p, prog, env) && Consistent(env, cfg) && Rel(env, cfg, prog, a, c)
    ensures Matched(env, cfg, prog, c, Amx.Steps(cfg, prog, n, a))
  {
    hide ImageOf, Compiled, RuntimeAt, Rel, Matched, Consistent;
    ImageIsCompiled(p, prog, env);
    RunSimulated(env, cfg, prog, n, a, c);
  }

  /** The nested execution discipline holds for it. */
  lemma ProgramReady(p: Program, prog: seq<Amx.Instr>, env: Env, cfg: Amx.Cfg)
    requires ImageOf(p, prog, env) && Consistent(env, cfg)
    ensures Ready(env, cfg, prog)
  {
    hide ImageOf, Compiled, RuntimeAt, Consistent;
    ImageIsCompiled(p, prog, env);
  }

  // ---- from the cells of the code section --------------------------------------------------

  lemma {:induction false} InstrsOf(p: Program, s: seq<Instruction>, k: int)
    requires Instrs(p, s).Some? && 0 <= k < |s|
    ensures |Instrs(p, s).value| == |s| && Instr(p, s[k]) == Some(Instrs(p, s).value[k])
  {
    InstrsAre(p, s);
    if k < |s| - 1 {
      InstrsOf(p, s[..|s| - 1], k);
      InstrsAre(p, s[..|s| - 1]);
    }
  }

  lemma {:induction false} StreamHas(p: Program, address: int, k: int)
    requires 0 <= k < |Stream(p, address).0|
    ensures InstructionAt(p, Stream(p, address).0[k].address) == Some(Stream(p, address).0[k])
    decreases k
  {
    if k > 0 { StreamHas(p, address + InstructionAt(p, address).value.Size(), k - 1); }
  }

  /** The instruction at an address of a program is the one its cells stand for. */
  lemma OpAt(p: Program, prog: seq<Amx.Instr>, i: Instruction, op: Amx.Op)
    requires Parse(p) == Some(prog) && Amx.Find(prog, i.address) >= 0
    requires CellsAt(p, i) && StandsFor(p, i, op) && !op.CaseTbl?
    ensures prog[Amx.Find(prog, i.address)] == Amx.Instr(i.address, op, i.Size())
  {
    hide InstructionAt, Translate.Operation, StandsFor, CellsAt, Stream, Instrs;
    var k, s := Amx.Find(prog, i.address), Stream(p, 0).0;
    InstrsAre(p, s);
    InstrsOf(p, s, k);
    StreamHas(p, 0, k);
    Decoded(p, i, op);
    OperationExact(p, i, op);
  }

  /** Where execution stands when a native function is entered: at the call instruction, its address
      in eax, the AMX structure and the address of the parameters as its arguments. */
  ghost predicate Enters(env: Env, a: Amx.State, d: Conf, f: Word) {
    && 0 <= d.pc < |env.code| && env.code[d.pc] == CallReg(EAX) && d.s.regs.eax == f
    && var x := Nesting.Called(env, d.s);
       Stored(x.native, x.regs.esp + 4, env.amxPtr) && Stored(x.native, x.regs.esp + 8, Add(env.base, a.stk))
       && x.amx.frm == a.frm && x.amx.stk == a.stk
  }

  lemma NativeEntered(p: Program, prog: seq<Amx.Instr>, env: Env, cfg: Amx.Cfg, s: State, c: Conf, a: Amx.State, i: Instruction, f: Word)
    returns (d: Conf)
    requires ImageOf(p, prog, env) && Consistent(env, cfg) && Rel(env, cfg, prog, a, c)
    requires Callable(env, s) && Running(env, s, c.s) && Fixed(env, cfg, c.s.amx) && Amx.Room(cfg, a, 8) && Foreign(env, f)
    requires Amx.Find(prog, a.cip) >= 0 && i.address == a.cip && CellsAt(p, i) && StandsFor(p, i, Amx.Ctl(Amx.Sysreq(Amx.ByAddress(f))))
    ensures Stops(env, c, d) && Enters(env, a, d, f)
  {
    hide Compiled, RuntimeAt, Rel, Consistent, Callable, Running, Fixed, Foreign, CellsAt, StandsFor, Suspended, Sound, Nesting.Called, Stops, Stored, Parse;
    ImageIsCompiled(p, prog, env);
    OpAt(p, prog, i, Amx.Ctl(Amx.Sysreq(Amx.ByAddress(f))));
    assert Amx.Steps(cfg, prog, 0, a) == Amx.Next(a);
    d := RunCalls(env, cfg, prog, s, c, a, 0, a, f);
  }

  /** SYSREQ.C with direct calls on: the native function with the index in the operand is entered
      by its own address, when that is known. */
  lemma NativeByIndex(p: Program, prog: seq<Amx.Instr>, env: Env, cfg: Amx.Cfg, s: State, c: Conf, a: Amx.State, v: Word) returns (d: Conf)
    requires ImageOf(p, prog, env) && Consistent(env, cfg) && Rel(env, cfg, prog, a, c)
    requires Callable(env, s) && Running(env, s, c.s) && Fixed(env, cfg, c.s.amx) && Amx.Room(cfg, a, 8)
    requires Amx.Find(prog, a.cip) >= 0 && p.cell(a.cip) == 123 && p.cell(a.cip + 4) == v
    requires p.direct && p.named(v) && p.address(v) != 0 && Foreign(env, p.address(v))
    ensures Stops(env, c, d) && Enters(env, a, d, p.address(v))
  {
    hide ImageOf, Consistent, Rel, Callable, Running, Fixed, Foreign, Stops, Enters;
    d := NativeEntered(p, prog, env, cfg, s, c, a, Instruction(a.cip, 123, [v]), p.address(v));
  }

  /** SYSREQ.D: the native function at the operand is entered. */
  lemma NativeByAddress(p: Program, prog: seq<Amx.Instr>, env: Env, cfg: Amx.Cfg, s: State, c: Conf, a: Amx.State, v: Word) returns (d: Conf)
    requires ImageOf(p, prog, env) && Consistent(env, cfg) && Rel(env, cfg, prog, a, c)
    requires Callable(env, s) && Running(env, s, c.s) && Fixed(env, cfg, c.s.amx) && Amx.Room(cfg, a, 8)
    requires Amx.Find(prog, a.cip) >= 0 && p.cell(a.cip) == 135 && p.cell(a.cip + 4) == v && p.registered(v) && Foreign(env, v)
    ensures Stops(env, c, d) && Enters(env, a, d, v)
  {
    hide ImageOf, Consistent, Rel, Callable, Running, Fixed, Foreign, Stops, Enters;
    d := NativeEntered(p, prog, env, cfg, s, c, a, Instruction(a.cip, 135, [v]), v);
  }

  /** SYSREQ.PRI, and SYSREQ.C otherwise: the index goes on the stack, and SysreqCHelper is called. */
  lemma NativeLookedUp(p: Program, prog: seq<Amx.Instr>, env: Env, cip: int, v: Word)
    requires ImageOf(p, prog, env) && Amx.Find(prog, cip) >= 0
    requires p.cell(cip) == 122 || (p.cell(cip) == 123 && p.cell(cip + 4) == v && p.named(v) && !(p.direct && p.address(v) != 0))
    ensures cip in env.labels && var at := env.labels[cip];
            && 0 <= at && at + 1 < |env.code| && env.code[at + 1] == X86.Call(ToHelper(SysreqCHelper))
            && env.code[at] == Push(if p.cell(cip) == 122 then R(EAX) else I(v))
  {
    hide ImageOf, Parse, StandsFor, CellsAt, CodeAt, Code;
    var n := if p.cell(cip) == 122 then Amx.ByPri else Amx.ByIndex(v);
    var i := if p.cell(cip) == 122 then Instruction(cip, 122, []) else Instruction(cip, 123, [v]);
    assert CellsAt(p, i) && StandsFor(p, i, Amx.Ctl(Amx.Sysreq(n))) by { IndexStands(p, i, n, v); }
    assert Parse(p) == Some(prog) by { Parsed(p, prog, env); }
    OpAt(p, prog, i, Amx.Ctl(Amx.Sysreq(n)));
    CodeOf(p, prog, env, Amx.Find(prog, cip));
    var code := [Push(if p.cell(cip) == 122 then R(EAX) else I(v)), X86.Call(ToHelper(SysreqCHelper))];
    assert Code(prog[Amx.Find(prog, cip)]) == code by { LookupCode(prog[Amx.Find(prog, cip)], n); }
    CodeItem(env, env.labels[cip], code, 0);
    CodeItem(env, env.labels[cip], code, 1);
  }

  lemma Parsed(p: Program, prog: seq<Amx.Instr>, env: Env)
    requires ImageOf(p, prog, env)
    ensures Parse(p) == Some(prog)
  {
    hide Parse, Assemble;
  }

  lemma IndexStands(p: Program, i: Instruction, n: Amx.NativeCall, v: Word)
    requires if n.ByPri? then i.opcode == p.cell(i.address) == 122 && i.operands == []
             else n == Amx.ByIndex(v) && i.opcode == p.cell(i.address) == 123 && i.operands == [p.cell(i.address + 4)] == [v]
                  && p.named(v) && !(p.direct && p.address(v) != 0)
    ensures CellsAt(p, i) && StandsFor(p, i, Amx.Ctl(Amx.Sysreq(n)))
  {
  }

  lemma LookupCode(x: Amx.Instr, n: Amx.NativeCall)
    requires x.op == Amx.Ctl(Amx.Sysreq(n)) && !n.ByAddress?
    ensures Code(x) == [Push(if n.ByPri? then R(EAX) else I(n.index)), X86.Call(ToHelper(SysreqCHelper))]
  {
  }

  lemma CodeOf(p: Program, prog: seq<Amx.Instr>, env: Env, k: int)
    requires ImageOf(p, prog, env) && 0 <= k < |prog|
    ensures prog[k].address in env.labels && CodeAt(env, env.labels[prog[k].address], Code(prog[k]))
  {
    hide ImageOf, RuntimeAt, Code;
    ImageIsCompiled(p, prog, env);
    assert Placed(env, prog, k);
  }

  /** The comparison that each conditional jump on two registers makes. */
  predicate Condition(id: int, pri: Word, alt: Word) {
    if id == 55 then pri == alt else if id == 56 then pri != alt
    else if id == 57 then pri < alt else if id == 58 then pri <= alt
    else if id == 59 then pri > alt else if id == 60 then pri >= alt
    else if id == 61 then Int(pri) < Int(alt) else if id == 62 then Int(pri) <= Int(alt)
    else if id == 63 then Int(pri) > Int(alt) else Int(pri) >= Int(alt)
  }

  /** JEQ to JSGEQ, from their cells: the code goes to the address in the operand when the
      comparison holds, and behind the two cells otherwise. */
  lemma BranchTaken(p: Program, prog: seq<Amx.Instr>, env: Env, cfg: Amx.Cfg, a: Amx.State, c: Conf)
    requires ImageOf(p, prog, env) && Consistent(env, cfg) && Rel(env, cfg, prog, a, c)
    requires Amx.Find(prog, a.cip) >= 0 && 55 <= p.cell(a.cip) <= 64
    ensures Matched(env, cfg, prog, c, Amx.Next(a.(cip := if Condition(p.cell(a.cip), a.pri, a.alt) then Int(Sub(p.cell(a.cip + 4), p.base)) else a.cip + 8)))
  {
    hide ImageOf, Consistent, Rel, Matched, Parse, StandsFor, CellsAt;
    var d, v := Int(Sub(p.cell(a.cip + 4), p.base)), p.cell(a.cip + 4);
    var r := RelationOf(p.cell(a.cip));
    var i := Instruction(a.cip, p.cell(a.cip), [v]);
    assert CellsAt(p, i) && StandsFor(p, i, Amx.Ctl(Amx.JRel(r, d))) by { BranchStands(p, i, r, d); }
    assert Parse(p) == Some(prog) by { Parsed(p, prog, env); }
    OpAt(p, prog, i, Amx.Ctl(Amx.JRel(r, d)));
    ProgramStepSimulated(p, prog, env, cfg, a, c);
    assert Amx.Step(cfg, prog, a) == Amx.Branch(a, prog[Amx.Find(prog, a.cip)], Amx.Related(r, a.pri, a.alt), d);
    RelationMeans(p.cell(a.cip), a.pri, a.alt);
  }

  function RelationOf(id: int): Amx.Rel {
    if id == 55 then Amx.Eq else if id == 56 then Amx.Neq else if id == 57 then Amx.Less else if id == 58 then Amx.Leq
    else if id == 59 then Amx.Grtr else if id == 60 then Amx.Geq else if id == 61 then Amx.SLess else if id == 62 then Amx.SLeq
    else if id == 63 then Amx.SGrtr else Amx.SGeq
  }

  lemma RelationMeans(id: int, pri: Word, alt: Word)
    requires 55 <= id <= 64
    ensures Amx.Related(RelationOf(id), pri, alt) == Condition(id, pri, alt)
  {
  }

  lemma BranchStands(p: Program, i: Instruction, r: Amx.Rel, d: int)
    requires 55 <= i.opcode <= 64 && i.opcode == p.cell(i.address) && i.operands == [p.cell(i.address + 4)]
    requires r == RelationOf(i.opcode) && d == Int(Sub(i.operands[0], p.base))
    ensures CellsAt(p, i) && StandsFor(p, i, Amx.Ctl(Amx.JRel(r, d)))
  {
    ToIs(p, i.operands[0], d);
  }

  /** SWITCH, from the cells of its table: the code goes to the address of the first record whose
      value is PRI, and to the default's when there is none. */
  lemma SwitchTaken(p: Program, prog: seq<Amx.Instr>, env: Env, cfg: Amx.Cfg, a: Amx.State, c: Conf, t: int, n: int, j: int)
    requires ImageOf(p, prog, env) && Consistent(env, cfg) && Rel(env, cfg, prog, a, c)
    requires Amx.Find(prog, a.cip) >= 0 && p.cell(a.cip) == 129 && t == Int(Sub(p.cell(a.cip + 4), p.base)) && n == Int(p.cell(t + 4))
    requires 0 <= j <= n && (j > 0 ==> p.cell(t + 4 + 8 * j) == a.pri)
    requires forall k :: 0 < k < (if j > 0 then j else n + 1) ==> p.cell(t + 4 + 8 * k) != a.pri
    ensures Matched(env, cfg, prog, c, Amx.Next(a.(cip := Int(Sub(p.cell(t + 8 + 8 * j), p.base)))))
  {
    hide ImageOf, Consistent, Rel, Matched, Parse, StandsFor, CellsAt, Sub;
    var cases := seq(n, k requires 0 <= k < n => Amx.Case(p.cell(t + 12 + 8 * k), Int(Sub(p.cell(t + 16 + 8 * k), p.base))));
    var d := Int(Sub(p.cell(t + 8), p.base));
    var i := Instruction(a.cip, 129, [p.cell(a.cip + 4)]);
    assert CellsAt(p, i) && StandsFor(p, i, Amx.Ctl(Amx.Switch(cases, d))) by { TableStands(p, i, t, cases, d); }
    assert TableCells(p, t, cases, d);
    assert Parse(p) == Some(prog) by { Parsed(p, prog, env); }
    OpAt(p, prog, i, Amx.Ctl(Amx.Switch(cases, d)));
    ProgramStepSimulated(p, prog, env, cfg, a, c);
    assert Amx.Step(cfg, prog, a) == Amx.Next(a.(cip := Amx.Match(cases, d, a.pri)));
    MatchCells(p, t, cases, d, a.pri, j);
  }

  lemma MatchCells(p: Program, t: int, cases: seq<Amx.Case>, d: int, v: Word, j: int)
    requires TableCells(p, t, cases, d) && 0 <= j <= |cases| && (j > 0 ==> p.cell(t + 4 + 8 * j) == v)
    requires forall k :: 0 < k < (if j > 0 then j else |cases| + 1) ==> p.cell(t + 4 + 8 * k) != v
    ensures Amx.Match(cases, d, v) == Int(Sub(p.cell(t + 8 + 8 * j), p.base))
  {
    hide Sub, Int;
    forall k | 0 <= k < (if j > 0 then j - 1 else |cases|)
      ensures cases[k].value != v
    {
      assert p.cell(t + 4 + 8 * (k + 1)) != v;
    }
    FirstMatch(cases, d, v, j - 1);
  }

  lemma TableStands(p: Program, i: Instruction, t: int, cases: seq<Amx.Case>, d: int)
    requires i.opcode == p.cell(i.address) == 129 && i.operands == [p.cell(i.address + 4)] && t == Int(Sub(i.operands[0], p.base))
    requires TableCells(p, t, cases, d)
    ensures CellsAt(p, i) && StandsFor(p, i, Amx.Ctl(Amx.Switch(cases, d)))
  {
    hide TableCells;
  }

  lemma {:induction false} FirstMatch(cases: seq<Amx.Case>, d: int, v: Word, j: int)
    requires -1 <= j < |cases| && (j >= 0 ==> cases[j].value == v)
    requires forall k :: 0 <= k < (if j >= 0 then j else |cases|) ==> cases[k].value != v
    ensures Amx.Match(cases, d, v) == if j >= 0 then cases[j].address else d
    decreases |cases|
  {
    if |cases| > 0 && j != 0 { FirstMatch(cases[1..], d, v, if j > 0 then j - 1 else -1); }
  }
}
