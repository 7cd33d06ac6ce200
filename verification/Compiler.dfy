/** The compiler: one pass over the code section that emits the code of every instruction,
    binds its label and records where it starts. */
module Compiler {
  import opened Word32
  import opened X86
  import Amx
  import opened Disasm
  import opened Translate
  import opened Emit
  import opened Runtime
  import opened Relation
  import opened Layout
  import opened InstrTable

  // ---- what is compiled ------------------------------------------------------------------

  function Instr(p: Program, i: Instruction): Option<Amx.Instr> {
    var op :- Operation(p, i);
    Some(Amx.Instr(i.address, op, i.Size()))
  }

  /** The instructions of a decoded stream, when the compiler knows them all. */
  function Instrs(p: Program, s: seq<Instruction>): Option<seq<Amx.Instr>> {
    if |s| == 0 then Some([])
    else
      var front :- Instrs(p, s[..|s| - 1]);
      var last :- Instr(p, s[|s| - 1]);
      Some(front + [last])
  }

  lemma {:induction false} InstrsPrefix(p: Program, s: seq<Instruction>, t: seq<Instruction>)
    requires Instrs(p, s).None?
    ensures Instrs(p, s + t).None?
    decreases |t|
  {
    if |t| == 0 {
      assert s + t == s;
    } else {
      assert (s + t)[..|s + t| - 1] == s + t[..|t| - 1];
      InstrsPrefix(p, s, t[..|t| - 1]);
    }
  }

  lemma {:induction false} InstrsAre(p: Program, s: seq<Instruction>)
    requires Instrs(p, s).Some?
    ensures var prog := Instrs(p, s).value;
            |prog| == |s| && forall k :: 0 <= k < |s| ==> prog[k].address == s[k].address && prog[k].size == s[k].Size()
  {
    if |s| > 0 { InstrsAre(p, s[..|s| - 1]); }
  }

  /** The program that the code section holds; None when an opcode is unknown or refused. */
  function Parse(p: Program): Option<seq<Amx.Instr>> {
    var s := Stream(p, 0);
    if s.1 then Instrs(p, s.0) else None
  }

  // ---- layout ------------------------------------------------------------------------------

  function Nops(n: nat): (c: seq<Insn>)
    ensures |c| == n && forall k :: 0 <= k < n ==> c[k] == Nop
  {
    seq(n, _ => Nop)
  }

  /** Emits one instruction: alignment, label, code. */
  function Emitted(env: Env, pad: nat, i: Amx.Instr): Env {
    var at := |env.code| + pad;
    env.(code := env.code + Nops(pad) + Code(i), labels := env.labels[i.address := at],
         ends := env.ends[i.address := at + |Code(i)|])
  }

  /** The code of prog lies in env in order, with nothing but padding in between. */
  ghost predicate LaidOut(env: Env, prog: seq<Amx.Instr>) {
    && Ordered(prog)
    && (forall k :: 0 <= k < |prog| ==> Placed(env, prog, k))
    && (forall k :: 0 <= k < |prog| - 1 ==> Chained(env, prog, k))
    && (|prog| > 0 ==> prog[|prog| - 1].address in env.ends && env.ends[prog[|prog| - 1].address] == |env.code|)
  }

  lemma PlacedKept(env: Env, prog: seq<Amx.Instr>, pad: nat, i: Amx.Instr, k: int)
    requires 0 <= k < |prog| && Placed(env, prog, k) && prog[k].address != i.address
    ensures Placed(Emitted(env, pad, i), prog + [i], k)
  {
    var e := Emitted(env, pad, i);
    var at := env.labels[prog[k].address];
    assert e.code[at..at + |Code(prog[k])|] == env.code[at..at + |Code(prog[k])|];
  }

  lemma PlacedNew(env: Env, prog: seq<Amx.Instr>, pad: nat, i: Amx.Instr)
    ensures Placed(Emitted(env, pad, i), prog + [i], |prog|)
  {
    var e := Emitted(env, pad, i);
    var at := |env.code| + pad;
    assert e.code[at..at + |Code(i)|] == Code(i);
  }

  lemma ChainedKept(env: Env, prog: seq<Amx.Instr>, pad: nat, i: Amx.Instr, k: int)
    requires 0 <= k < |prog| - 1 && Chained(env, prog, k)
    requires prog[k].address != i.address && prog[k + 1].address != i.address
    ensures Chained(Emitted(env, pad, i), prog + [i], k)
  {
  }

  lemma ChainedNew(env: Env, prog: seq<Amx.Instr>, pad: nat, i: Amx.Instr)
    requires |prog| > 0 && prog[|prog| - 1].address in env.ends && env.ends[prog[|prog| - 1].address] == |env.code|
    requires prog[|prog| - 1].address != i.address
    ensures Chained(Emitted(env, pad, i), prog + [i], |prog| - 1)
  {
    var e := Emitted(env, pad, i);
    forall m | |env.code| <= m < |env.code| + pad
      ensures e.code[m] == Nop
    {
      assert e.code[m] == Nops(pad)[m - |env.code|];
    }
  }

  /** Emitting the instruction that follows keeps the layout. */
  lemma EmitKeeps(env: Env, prog: seq<Amx.Instr>, pad: nat, i: Amx.Instr)
    requires LaidOut(env, prog) && i.size > 0 && i.address >= 0
    requires |prog| > 0 ==> i.address == prog[|prog| - 1].address + prog[|prog| - 1].size
    ensures LaidOut(Emitted(env, pad, i), prog + [i])
  {
    hide Code, CodeAt, Padding;
    var e, q := Emitted(env, pad, i), prog + [i];
    OrderedMore(prog, i);
    forall k | 0 <= k < |q|
      ensures Placed(e, q, k)
    {
      if k < |prog| { PlacedKept(env, prog, pad, i, k); } else { PlacedNew(env, prog, pad, i); }
    }
    forall k | 0 <= k < |q| - 1
      ensures Chained(e, q, k)
    {
      if k < |prog| - 1 { ChainedKept(env, prog, pad, i, k); } else {
        assert Placed(env, prog, k);
        ChainedNew(env, prog, pad, i);
      }
    }
  }

  lemma OrderedMore(prog: seq<Amx.Instr>, i: Amx.Instr)
    requires Ordered(prog) && i.size > 0 && i.address >= 0
    requires |prog| > 0 ==> i.address == prog[|prog| - 1].address + prog[|prog| - 1].size
    ensures Ordered(prog + [i])
    ensures forall k :: 0 <= k < |prog| ==> prog[k].address < i.address
  {
    var q := prog + [i];
    forall k | 0 <= k < |prog|
      ensures prog[k].address + prog[k].size <= i.address
    {
      if k < |prog| - 1 { assert prog[k].address + prog[k].size <= prog[|prog| - 1].address; }
    }
    forall k | 0 <= k < |q| - 1
      ensures q[k + 1].address == q[k].address + q[k].size
    {
      if k < |prog| - 1 { assert prog[k + 1].address == prog[k].address + prog[k].size; }
    }
  }

  // ---- the index of instructions --------------------------------------------------------------

  /** std::map insertion: the entries are kept sorted by address. */
  function Insert(m: seq<(int, int)>, k: int, v: int): seq<(int, int)> {
    if |m| == 0 || m[|m| - 1].0 < k then m + [(k, v)]
    else if m[|m| - 1].0 == k then m[..|m| - 1] + [(k, v)]
    else Insert(m[..|m| - 1], k, v) + [m[|m| - 1]]
  }

  /** One entry an instruction, in order, with the position its label is bound to. */
  ghost predicate Indexed(m: seq<(int, int)>, labels: map<int, int>, prog: seq<Amx.Instr>) {
    && |m| == |prog|
    && forall k :: 0 <= k < |prog| ==> prog[k].address in labels && m[k] == (prog[k].address, labels[prog[k].address])
  }

  lemma IndexedMore(m: seq<(int, int)>, labels: map<int, int>, prog: seq<Amx.Instr>, i: Amx.Instr, at: int)
    requires Indexed(m, labels, prog) && forall k :: 0 <= k < |prog| ==> prog[k].address < i.address
    ensures Indexed(Insert(m, i.address, at), labels[i.address := at], prog + [i])
  {
    assert |m| > 0 ==> m[|m| - 1].0 == prog[|prog| - 1].address;
    assert Insert(m, i.address, at) == m + [(i.address, at)];
  }

  // ---- the compiler itself ------------------------------------------------------------------------

  const RUNTIME: seq<Insn> :=
    EXEC + (EXEC_HELPER + (HALT_HELPER + (JUMP_LOOKUP + (JUMP_HELPER + SYSREQ_D_HELPER))))

  const EMPTY: Env :=
    Env(0, 0, 0, 0, 0, [], [], map[], map[], map[], map[], [], map[], _ => Junk(0, 0, _ => 0, _ => 0), 0)

  /** Procedures are aligned. */
  function Pad(align: int -> nat, at: int, i: Amx.Instr): nat {
    if i.op == Amx.Stk(Amx.Proc) then align(at) else 0
  }

  /** The runtime alone. */
  function Bare(): Env { EMPTY.(code := RUNTIME) }

  /** The runtime and behind it the instructions, one after the other. */
  function Assembly(prog: seq<Amx.Instr>, align: int -> nat): Env {
    if |prog| == 0 then Bare()
    else
      var before, i := Assembly(prog[..|prog| - 1], align), prog[|prog| - 1];
      Emitted(before, Pad(align, |before.code|, i), i)
  }

  /** Where the code of each instruction starts. */
  function InstrMap(prog: seq<Amx.Instr>, align: int -> nat): seq<(int, int)> {
    if |prog| == 0 then []
    else
      var front, before, i := prog[..|prog| - 1], Assembly(prog[..|prog| - 1], align), prog[|prog| - 1];
      Insert(InstrMap(front, align), i.address, |before.code| + Pad(align, |before.code|, i))
  }

  lemma AssemblyMore(prog: seq<Amx.Instr>, align: int -> nat, i: Amx.Instr)
    ensures var before := Assembly(prog, align);
            var pad := Pad(align, |before.code|, i);
            && Assembly(prog + [i], align) == Emitted(before, pad, i)
            && InstrMap(prog + [i], align) == Insert(InstrMap(prog, align), i.address, |before.code| + pad)
  {
    hide Emitted, Pad, Insert, Bare;
    assert (prog + [i])[..|prog|] == prog;
  }

  /** The code of every instruction lies behind its label, in order, and the index says where. */
  lemma {:induction false} AssemblyLaidOut(prog: seq<Amx.Instr>, align: int -> nat)
    requires Ordered(prog)
    ensures var env := Assembly(prog, align);
            LaidOut(env, prog) && Indexed(InstrMap(prog, align), env.labels, prog) && Starts(env.code)
    ensures |InstrMap(prog, align)| == |prog|
  {
    hide Code, LaidOut, Indexed, Starts, Insert, Nops, Assembly, InstrMap, Ordered, Pad;
    if |prog| == 0 {
      assert prog == [];
      NothingAssembled(align);
      NothingLaid(Bare());
      StartsSelf();
    } else {
      var front, i := prog[..|prog| - 1], prog[|prog| - 1];
      OrderedPrefix(prog);
      AssemblyLaidOut(front, align);
      var before := Assembly(front, align);
      var pad := Pad(align, |before.code|, i);
      LastFollows(prog);
      AssemblyMore(front, align, i);
      StepKeeps(before, front, InstrMap(front, align), pad, i);
      assert front + [i] == prog;
      StartsMore(before.code, Nops(pad));
      StartsMore(before.code + Nops(pad), Code(i));
    }
    IndexedLength(InstrMap(prog, align), Assembly(prog, align).labels, prog);
  }

  lemma LastFollows(prog: seq<Amx.Instr>)
    requires Ordered(prog) && |prog| > 0
    ensures var front, i := prog[..|prog| - 1], prog[|prog| - 1];
            && i.size > 0 && i.address >= 0
            && (|front| > 0 ==> i.address == front[|front| - 1].address + front[|front| - 1].size)
  {
    if |prog| > 1 { assert prog[|prog| - 2 + 1].address == prog[|prog| - 2].address + prog[|prog| - 2].size; }
  }

  /** Where the code in front of that of an instruction ends. */
  function EndBefore(env: Env, prog: seq<Amx.Instr>, k: int): int
    requires 0 <= k < |prog|
  {
    if k == 0 then |RUNTIME| else if prog[k - 1].address in env.ends then env.ends[prog[k - 1].address] else -1
  }

  /** The code of a procedure starts as far behind the code in front of it as alignment says, and
      that of any other instruction right behind it. */
  lemma {:induction false} AlignedStarts(prog: seq<Amx.Instr>, align: int -> nat, k: int)
    requires Ordered(prog) && 0 <= k < |prog|
    ensures var env, i := Assembly(prog, align), prog[k];
            && (k > 0 ==> prog[k - 1].address in env.ends)
            && var end := if k == 0 then |RUNTIME| else env.ends[prog[k - 1].address];
            i.address in env.labels && env.labels[i.address] == if i.op == Amx.Stk(Amx.Proc) then end + align(end) else end
  {
    hide Code, Nops, Starts, Bare, LaidOut, Indexed, Emitted, Assembly;
    PaddedStarts(prog, align, k);
  }

  lemma {:induction false} PaddedStarts(prog: seq<Amx.Instr>, align: int -> nat, k: int)
    requires Ordered(prog) && 0 <= k < |prog|
    ensures var env := Assembly(prog, align);
            && (k > 0 ==> prog[k - 1].address in env.ends) && prog[k].address in env.labels
            && env.labels[prog[k].address] == EndBefore(env, prog, k) + Pad(align, EndBefore(env, prog, k), prog[k])
  {
    hide *;
    if k == |prog| - 1 {
      LastStart(prog, align);
    } else {
      OrderedPrefix(prog);
      var front := prog[..|prog| - 1];
      PaddedStarts(front, align, k);
      EarlierKept(prog, align, k);
      var a, b := Assembly(front, align), Assembly(prog, align);
      if k > 0 {
        EarlierKept(prog, align, k - 1);
        SomethingBefore(a, front, k);
        SomethingBefore(b, prog, k);
      } else {
        NothingBefore(a, front);
        NothingBefore(b, prog);
      }
    }
  }

  lemma LastStart(prog: seq<Amx.Instr>, align: int -> nat)
    requires Ordered(prog) && |prog| > 0
    ensures var env, k := Assembly(prog, align), |prog| - 1;
            && (k > 0 ==> prog[k - 1].address in env.ends) && prog[k].address in env.labels
            && env.labels[prog[k].address] == EndBefore(env, prog, k) + Pad(align, EndBefore(env, prog, k), prog[k])
  {
    hide *;
    var front, i := prog[..|prog| - 1], prog[|prog| - 1];
    assert front + [i] == prog;
    AssemblyMore(front, align, i);
    var before := Assembly(front, align);
    LastPlaced(before, Pad(align, |before.code|, i), i);
    if |front| == 0 {
      BareLength(align);
      assert front == [];
      NothingBefore(Assembly(prog, align), prog);
    } else {
      FrontEnds(prog, align);
      SomethingBefore(Assembly(prog, align), prog, |prog| - 1);
    }
  }

  lemma NothingBefore(env: Env, prog: seq<Amx.Instr>)
    requires |prog| > 0
    ensures EndBefore(env, prog, 0) == |RUNTIME|
  {
  }

  lemma SomethingBefore(env: Env, prog: seq<Amx.Instr>, k: int)
    requires 0 < k < |prog| && prog[k - 1].address in env.ends
    ensures EndBefore(env, prog, k) == env.ends[prog[k - 1].address]
  {
  }

  lemma LastPlaced(env: Env, pad: nat, i: Amx.Instr)
    ensures var e := Emitted(env, pad, i);
            && i.address in e.labels && e.labels[i.address] == |env.code| + pad
            && forall x :: x in env.ends && x != i.address ==> x in e.ends && e.ends[x] == env.ends[x]
  {
    hide Code, Nops;
  }

  lemma FrontEnds(prog: seq<Amx.Instr>, align: int -> nat)
    requires Ordered(prog) && |prog| > 1
    ensures var env, x := Assembly(prog[..|prog| - 1], align), prog[|prog| - 2].address;
            x in env.ends && env.ends[x] == |env.code| && x != prog[|prog| - 1].address
  {
    hide Code, Nops, Starts, Indexed, InstrMap, LaidOut, Ordered, Assembly, RuntimeAt, Emitted;
    var front := prog[..|prog| - 1];
    OrderedPrefix(prog);
    AssemblyLaidOut(front, align);
    EndIs(Assembly(front, align), front);
    LastFollows(prog);
  }

  lemma EndIs(env: Env, prog: seq<Amx.Instr>)
    requires LaidOut(env, prog) && |prog| > 0
    ensures var x := prog[|prog| - 1]; x.address in env.ends && env.ends[x.address] == |env.code| && x.size > 0
  {
    hide Placed, Chained;
  }

  lemma EarlierKept(prog: seq<Amx.Instr>, align: int -> nat, k: int)
    requires Ordered(prog) && 0 <= k < |prog| - 1
    ensures var a, b, x := Assembly(prog[..|prog| - 1], align), Assembly(prog, align), prog[k].address;
            && (x in a.labels ==> x in b.labels && b.labels[x] == a.labels[x]) && (x in a.ends ==> x in b.ends && b.ends[x] == a.ends[x])
  {
    hide Code, Nops, Bare, Pad;
    assert prog[k].address + prog[k].size <= prog[|prog| - 1].address;
  }

  lemma BareLength(align: int -> nat)
    ensures |Assembly([], align).code| == |RUNTIME|
  {
    hide Code, Nops;
  }

  class CompilerImpl {
    const program: Program
    /** How many no-operations align the code at an index. */
    const align: int -> nat
    var code: seq<Insn>
    var labels: map<int, int>
    ghost var ends: map<int, int>
    var instrMap: seq<(int, int)>
    /** Entries reserved for the instruction table. */
    var reserved: nat

    constructor (p: Program, align: int -> nat)
      ensures program == p && this.align == align
    {
      program, this.align := p, align;
      code, labels, ends, instrMap, reserved := [], map[], map[], [], 0;
    }

    ghost function Image(): Env
      reads this
    {
      EMPTY.(code := code, labels := labels, ends := ends)
    }

    /** The chain of compares of SWITCH. */
    method EmitCases(records: seq<Amx.Case>)
      requires |records| > 0
      modifies this`code
      ensures code == old(code) + CaseChain(records[1..])
    {
      ghost var head := code;
      var i := 1;
      while i < |records|
        invariant 1 <= i <= |records|
        invariant code + CaseChain(records[i..]) == head + CaseChain(records[1..])
      {
        code := code + [Cmp(EAX, I(records[i].value)), Jcc(E, ToCode(records[i].address))];
        assert records[i..][1..] == records[i + 1..];
        i := i + 1;
      }
    }

    /** The range test in front of the chain, and the jump to the default behind it. */
    method EmitSwitch(records: seq<Amx.Case>)
      requires |records| > 0
      modifies this`code
      ensures code == old(code) + SwitchCode(records[1..], records[0].address)
    {
      hide MinCase, MaxCase, CaseChain;
      var d := records[0].address;
      if |records| > 1 {
        var min := FindMinValue(records);
        var max := FindMaxValue(records);
        LeastIs(records, min);
        GreatestIs(records, max);
        code := code + [Cmp(EAX, I(min)), Jcc(L, ToCode(d)), Cmp(EAX, I(max)), Jcc(G, ToCode(d))];
        EmitCases(records);
      }
      code := code + [Jmp(ToCode(d))];
    }

    method EmitInstr(p: Program, i: Instruction, instr: Amx.Instr)
      requires Instr(p, i) == Some(instr)
      modifies this`code
      ensures code == old(code) + Code(instr)
    {
      hide Operation, Code, WithOperand, WithoutOperand, Simple, Jumping;
      if instr.op.Ctl? && instr.op.ctl.Switch? {
        SwitchRecords(p, i, instr);
        var records := ReadTable(p, i.operands[0]);
        EmitSwitch(records);
      } else {
        code := code + Code(instr);
      }
    }

    /** One round of the loop: alignment in front of procedures, label, index entry, code. */
    method EmitNext(i: Instruction, instr: Amx.Instr) returns (pad: nat)
      requires Instr(program, i) == Some(instr) && i.address == instr.address
      modifies this
      ensures pad == Pad(align, old(|code|), instr) && Image() == Emitted(old(Image()), pad, instr)
      ensures instrMap == Insert(old(instrMap), instr.address, old(|code|) + pad)
      ensures reserved == old(reserved)
    {
      hide Code, Insert, Instr;
      ProcOpcode(program, i, instr);
      pad := if i.opcode == PROC then align(|code|) else 0;
      code := code + Nops(pad);
      labels := labels[i.address := |code|];
      instrMap := Insert(instrMap, i.address, |code|);
      EmitInstr(program, i, instr);
      ends := ends[i.address := |code|];
    }

    method EmitAndTrack(i: Instruction, instr: Amx.Instr, ghost prog: seq<Amx.Instr>)
      requires Instr(program, i) == Some(instr)
      requires Image() == Assembly(prog, align) && instrMap == InstrMap(prog, align)
      modifies this
      ensures Image() == Assembly(prog + [instr], align) && instrMap == InstrMap(prog + [instr], align)
      ensures reserved == old(reserved)
    {
      hide Code, Insert, Instr, Nops, Assembly, InstrMap, Emitted, Pad;
      assert i.address == instr.address by { InstrAddress(program, i); }
      var pad := EmitNext(i, instr);
      AssemblyMore(prog, align, instr);
    }

    method EmitRuntime()
      modifies this
      ensures Image() == Assembly([], align) && instrMap == InstrMap([], align) && reserved == old(reserved)
    {
      code, labels, ends, instrMap := RUNTIME, map[], map[], [];
      NothingAssembled(align);
    }

    /** Succeeds exactly for the programs that parse; then the code and the labels are those of
        the instructions assembled one after the other, the index has an entry for each, and as
        many entries as the first pass reserved. */
    method Compile() returns (ok: bool)
      modifies this
      ensures ok == Parse(program).Some?
      ensures ok ==> Image() == Assembly(Parse(program).value, align) && instrMap == InstrMap(Parse(program).value, align)
      ensures ok ==> reserved == |instrMap| == |Parse(program).value|
    {
      hide Code, Assembly, InstrMap, Ordered, Instrs, InstructionAt, Operation, Emitted, CompilerImpl.Image;
      reserved := CountInstructions(program);
      EmitRuntime();
      assert Instrs(program, []) == Some([]) by { NothingParsed(program); }
      var disasm := new Disassembler(program);
      var r, error := disasm.Decode();
      ghost var at, done, prog := 0, [], [];
      assert [] + Stream(program, 0).0 == Stream(program, 0).0;
      while r.Some?
        invariant disasm.program == program && fresh(disasm) && at >= 0
        invariant r == if 0 <= at < program.length then InstructionAt(program, at) else None
        invariant error == (at < program.length && r.None?)
        invariant disasm.address == at + if r.Some? then r.value.Size() else 0
        invariant done + Stream(program, at).0 == Stream(program, 0).0 && Stream(program, at).1 == Stream(program, 0).1
        invariant Instrs(program, done) == Some(prog)
        invariant Image() == Assembly(prog, align) && instrMap == InstrMap(prog, align)
        invariant reserved == |Stream(program, 0).0|
        decreases program.length - at
      {
        var i := r.value;
        AtAddress(program, at);
        StreamStep(program, at, done);
        var op := Operation(program, i);
        if op.None? {
          Refused(program, done, i, Stream(program, at + i.Size()).0);
          return false;
        }
        var instr := Amx.Instr(i.address, op.value, i.Size());
        EmitAndTrack(i, instr, prog);
        Accepted(program, done, prog, i);
        at, done, prog := at + i.Size(), done + [i], prog + [instr];
        r, error := disasm.Decode();
      }
      ok := !error;
      assert Stream(program, at).0 == [];
      assert done == Stream(program, 0).0;
      if ok { AllMapped(program, align, done, prog); }
    }

    /** Places the code and fills the table from the index. */
    method Finish(addrs: seq<Word>, ghost host: Env) returns (table: seq<Entry>, ghost env: Env)
      requires Parse(program).Some? && Image() == Assembly(Parse(program).value, align) && instrMap == InstrMap(Parse(program).value, align)
      ensures env == Assemble(Parse(program).value, align, addrs, host)
      ensures table == env.table && |table| == |instrMap|
    {
      hide Assembly, InstrMap, Parse, Table;
      table := FillTable(instrMap, addrs);
      env := Assemble(Parse(program).value, align, addrs, host);
    }
  }

  predicate IsSwitch(op: Option<Amx.Op>) { op.Some? && op.value.Ctl? && op.value.ctl.Switch? }

  lemma OnlySwitch(p: Program, id: Word, v: Word)
    ensures !IsSwitch(WithoutOperand(id)) && !IsSwitch(Simple(id, v)) && !IsSwitch(Jumping(p, id, Relative(p, v)))
    ensures IsSwitch(Calling(p, id, v)) ==> id == 129
  {
  }

  lemma SwitchRecords(p: Program, i: Instruction, instr: Amx.Instr)
    requires Instr(p, i) == Some(instr) && IsSwitch(Some(instr.op))
    ensures |i.operands| == 1 && Records(p, i.operands[0]).Some?
    ensures var r := Records(p, i.operands[0]).value; |r| > 0 && Code(instr) == SwitchCode(r[1..], r[0].address)
  {
    hide WithoutOperand, Simple, Jumping, SwitchCode;
    OnlySwitch(p, i.opcode, if |i.operands| == 1 then i.operands[0] else 0);
  }

  lemma LeastIs(records: seq<Amx.Case>, min: Word)
    requires |records| > 1
    requires forall k :: 1 <= k < |records| ==> Int(min) <= Int(records[k].value)
    requires exists k :: 1 <= k < |records| && min == records[k].value
    ensures min == MinCase(records[1..])
  {
    var c := records[1..];
    var a :| 0 <= a < |c| && MinCase(c) == c[a].value;
    var x :| 1 <= x < |records| && min == records[x].value;
    assert c[a] == records[a + 1] && c[x - 1] == records[x];
  }

  lemma GreatestIs(records: seq<Amx.Case>, max: Word)
    requires |records| > 1
    requires forall k :: 1 <= k < |records| ==> Int(max) >= Int(records[k].value)
    requires exists k :: 1 <= k < |records| && max == records[k].value
    ensures max == MaxCase(records[1..])
  {
    var c := records[1..];
    var a :| 0 <= a < |c| && MaxCase(c) == c[a].value;
    var x :| 1 <= x < |records| && max == records[x].value;
    assert c[a] == records[a + 1] && c[x - 1] == records[x];
  }

  lemma StreamStep(p: Program, at: int, done: seq<Instruction>)
    requires 0 <= at < p.length && InstructionAt(p, at).Some?
    ensures var i := InstructionAt(p, at).value;
            && done + Stream(p, at).0 == (done + [i]) + Stream(p, at + i.Size()).0
            && Stream(p, at).1 == Stream(p, at + i.Size()).1
  {
  }

  lemma StepKeeps(env: Env, prog: seq<Amx.Instr>, m: seq<(int, int)>, pad: nat, i: Amx.Instr)
    requires LaidOut(env, prog) && Indexed(m, env.labels, prog) && i.size > 0 && i.address >= 0
    requires |prog| > 0 ==> i.address == prog[|prog| - 1].address + prog[|prog| - 1].size
    ensures LaidOut(Emitted(env, pad, i), prog + [i])
    ensures Indexed(Insert(m, i.address, |env.code| + pad), env.labels[i.address := |env.code| + pad], prog + [i])
  {
    hide Code;
    EmitKeeps(env, prog, pad, i);
    OrderedMore(prog, i);
    IndexedMore(m, env.labels, prog, i, |env.code| + pad);
  }

  lemma InstrAddress(p: Program, i: Instruction)
    ensures Instr(p, i).Some? ==> Instr(p, i).value.address == i.address
  {
  }

  lemma IndexedLength(m: seq<(int, int)>, labels: map<int, int>, prog: seq<Amx.Instr>)
    requires Indexed(m, labels, prog)
    ensures |m| == |prog|
  {
  }

  lemma AtAddress(p: Program, at: int)
    requires InstructionAt(p, at).Some?
    ensures InstructionAt(p, at).value.address == at && InstructionAt(p, at).value.Size() > 0
  {
  }

  lemma NothingAssembled(align: int -> nat)
    ensures Assembly([], align) == Bare() && InstrMap([], align) == []
  {
  }

  lemma AllMapped(p: Program, align: int -> nat, done: seq<Instruction>, prog: seq<Amx.Instr>)
    requires Stream(p, 0) == (done, true) && Instrs(p, done) == Some(prog)
    ensures Parse(p) == Some(prog) && |InstrMap(prog, align)| == |prog| == |done|
  {
    hide Instrs, InstrMap, Assembly;
    InstrsAre(p, done);
    ParseOrdered(p, prog);
    AssemblyLaidOut(prog, align);
  }

  lemma ProcOpcode(p: Program, i: Instruction, instr: Amx.Instr)
    requires Instr(p, i) == Some(instr)
    ensures i.opcode == PROC <==> instr.op == Amx.Stk(Amx.Proc)
  {
    hide Records;
  }

  /** The instructions of a program that parses follow one another. */
  lemma ParseOrdered(p: Program, prog: seq<Amx.Instr>)
    requires Parse(p) == Some(prog)
    ensures Ordered(prog)
  {
    var s := Stream(p, 0).0;
    StreamIsContiguous(p, 0);
    InstrsAre(p, s);
    forall k | 0 <= k < |prog| - 1
      ensures prog[k + 1].address == prog[k].address + prog[k].size
    {
      assert s[k + 1].address == s[k].address + s[k].Size();
    }
    InRow(prog);
  }

  /** Neighbours that meet lie in order. */
  lemma {:induction false} InRow(prog: seq<Amx.Instr>)
    requires forall k :: 0 <= k < |prog| ==> prog[k].size > 0 && prog[k].address >= 0
    requires forall k {:trigger prog[k]} :: 0 <= k < |prog| - 1 ==> prog[k + 1].address == prog[k].address + prog[k].size
    ensures Ordered(prog)
  {
    if |prog| == 0 { return; }
    var front, i := prog[..|prog| - 1], prog[|prog| - 1];
    assert forall k {:trigger front[k]} :: 0 <= k < |front| - 1 ==> prog[k + 1] == front[k + 1] && prog[k] == front[k];
    InRow(front);
    assert front + [i] == prog;
    if |front| > 0 { assert prog[|front| - 1 + 1].address == prog[|front| - 1].address + prog[|front| - 1].size; }
    OrderedMore(front, i);
  }

  lemma NothingParsed(p: Program)
    ensures Instrs(p, []) == Some([])
  {
  }

  lemma Accepted(p: Program, done: seq<Instruction>, prog: seq<Amx.Instr>, i: Instruction)
    requires Instrs(p, done) == Some(prog) && Operation(p, i).Some?
    ensures Instrs(p, done + [i]) == Some(prog + [Amx.Instr(i.address, Operation(p, i).value, i.Size())])
  {
    assert (done + [i])[..|done|] == done;
  }

  lemma NothingLaid(env: Env)
    ensures LaidOut(env, []) && Indexed([], env.labels, [])
  {
  }

  ghost predicate Starts(code: seq<Insn>) {
    |RUNTIME| <= |code| && code[..|RUNTIME|] == RUNTIME
  }

  lemma StartsSelf()
    ensures Starts(RUNTIME)
  {
  }

  lemma StartsMore(code: seq<Insn>, c: seq<Insn>)
    requires Starts(code)
    ensures Starts(code + c)
  {
    assert (code + c)[..|RUNTIME|] == code[..|RUNTIME|];
  }

  lemma Refused(p: Program, done: seq<Instruction>, i: Instruction, rest: seq<Instruction>)
    requires Operation(p, i).None?
    ensures Instrs(p, (done + [i]) + rest).None?
  {
    assert (done + [i])[|done|] == i;
    InstrsPrefix(p, done + [i], rest);
  }

  // ---- the finished image -----------------------------------------------------------------------

  /** The table as filled from the index once the code has its addresses. */
  function Table(m: seq<(int, int)>, addrs: seq<Word>): (t: seq<Entry>)
    ensures |t| == |m|
  {
    seq(|m|, k requires 0 <= k < |m| => Entry(m[k].0, AddressOf(addrs, m[k].1)))
  }

  function AddressOf(addrs: seq<Word>, k: int): Word { if 0 <= k < |addrs| then addrs[k] else 0 }

  method FillTable(m: seq<(int, int)>, addrs: seq<Word>) returns (t: seq<Entry>)
    ensures t == Table(m, addrs)
  {
    t := [];
    var k := 0;
    while k < |m|
      invariant 0 <= k <= |m| && t == Table(m, addrs)[..k]
    {
      t := t + [Entry(m[k].0, AddressOf(addrs, m[k].1))];
      k := k + 1;
    }
  }

  lemma TableEntry(env: Env, prog: seq<Amx.Instr>, m: seq<(int, int)>, k: int)
    requires LaidOut(env, prog) && Indexed(m, env.labels, prog) && Addressed(env) && 0 <= k < |prog|
    ensures prog[k].address in env.labels && 0 <= env.labels[prog[k].address] < |env.addrs|
    ensures Table(m, env.addrs)[k] == Entry(prog[k].address, env.addrs[env.labels[prog[k].address]])
  {
    assert Placed(env, prog, k);
  }

  lemma {:induction false} LabelsAscend(env: Env, prog: seq<Amx.Instr>, i: int, j: int)
    requires LaidOut(env, prog) && 0 <= i <= j < |prog|
    ensures prog[i].address in env.labels && prog[j].address in env.labels
    ensures env.labels[prog[i].address] <= env.labels[prog[j].address]
    decreases j - i
  {
    hide Code, CodeAt, Ordered;
    assert Placed(env, prog, i);
    if i < j {
      assert Chained(env, prog, i);
      LabelsAscend(env, prog, i + 1, j);
    }
  }

  /** The table is strictly sorted by AMX address and sorted by pointer. */
  lemma TableAscends(env: Env, prog: seq<Amx.Instr>, m: seq<(int, int)>)
    requires LaidOut(env, prog) && Indexed(m, env.labels, prog) && Addressed(env)
    ensures Ascending(Table(m, env.addrs)) && PtrsAscend(Table(m, env.addrs))
  {
    var t := Table(m, env.addrs);
    forall i, j | 0 <= i < j < |t|
      ensures t[i].address < t[j].address && t[i].ptr <= t[j].ptr
    {
      TableEntry(env, prog, m, i);
      TableEntry(env, prog, m, j);
      LabelsAscend(env, prog, i, j);
      assert prog[i].size > 0 && prog[i].address + prog[i].size <= prog[j].address;
    }
  }

  /** Looking an address up finds the code of the instruction there, and fails exactly when
      there is none. */
  lemma TableFinds(env: Env, prog: seq<Amx.Instr>, m: seq<(int, int)>)
    requires LaidOut(env, prog) && Indexed(m, env.labels, prog) && Addressed(env) && env.table == Table(m, env.addrs)
    ensures Tabled(env, prog)
  {
    TableAscends(env, prog, m);
    forall a: int
      ensures Lookup(env.table, a) == if Amx.Find(prog, a) >= 0 && a in env.labels then PtrAt(env, env.labels[a]) else 0
    {
      var k := Amx.Find(prog, a);
      if k >= 0 {
        TableEntry(env, prog, m, k);
        LookupIs(env.table, k);
      } else {
        forall j | 0 <= j < |env.table|
          ensures env.table[j].address != a
        {
          TableEntry(env, prog, m, j);
          FindIs(prog, j);
        }
        LookupNone(env.table, a);
      }
    }
  }

  /** Where the code behind each call resumes; return address 0 is that of ExecHelper. */
  function Resumes(prog: seq<Amx.Instr>, ends: map<int, int>, host: int): map<int, int> {
    if |prog| == 0 then map[0 := host]
    else
      var r := Resumes(prog[..|prog| - 1], ends, host);
      var i := prog[|prog| - 1];
      if IsCall(i) && i.address in ends then r[i.address + i.size := ends[i.address]] else r
  }

  predicate IsCall(i: Amx.Instr) { i.op.Ctl? && i.op.ctl.Call? }

  function Behind(i: Amx.Instr): int { i.address + i.size }

  lemma OrderedPrefix(prog: seq<Amx.Instr>)
    requires Ordered(prog) && |prog| > 0
    ensures Ordered(prog[..|prog| - 1])
  {
    var p := prog[..|prog| - 1];
    forall k | 0 <= k < |p| - 1
      ensures p[k + 1].address == p[k].address + p[k].size
    {
      assert prog[k + 1].address == prog[k].address + prog[k].size;
    }
  }

  /** Every call is found under its return address. */
  lemma {:induction false} ResumesOfCall(prog: seq<Amx.Instr>, ends: map<int, int>, host: int, k: int)
    requires Ordered(prog) && 0 <= k < |prog| && IsCall(prog[k]) && prog[k].address in ends
    ensures var r := Resumes(prog, ends, host); Behind(prog[k]) in r && r[Behind(prog[k])] == ends[prog[k].address]
  {
    if k < |prog| - 1 {
      OrderedPrefix(prog);
      ResumesOfCall(prog[..|prog| - 1], ends, host, k);
      assert Behind(prog[k]) <= prog[|prog| - 1].address;
    }
  }

  /** Every return address is that of the host, or the one behind some instruction. */
  lemma {:induction false} ResumesBehind(prog: seq<Amx.Instr>, ends: map<int, int>, host: int, a: int) returns (k: int)
    requires Ordered(prog) && a in Resumes(prog, ends, host) && a != 0
    ensures 0 <= k < |prog| && prog[k].address in ends && a == Behind(prog[k])
    ensures Resumes(prog, ends, host)[a] == ends[prog[k].address]
  {
    var i := prog[|prog| - 1];
    if IsCall(i) && i.address in ends && a == Behind(i) {
      k := |prog| - 1;
    } else {
      OrderedPrefix(prog);
      k := ResumesBehind(prog[..|prog| - 1], ends, host, a);
    }
  }

  lemma {:induction false} ResumesHost(prog: seq<Amx.Instr>, ends: map<int, int>, host: int)
    requires Ordered(prog)
    ensures 0 in Resumes(prog, ends, host) && Resumes(prog, ends, host)[0] == host
  {
    if |prog| > 0 {
      OrderedPrefix(prog);
      ResumesHost(prog[..|prog| - 1], ends, host);
      assert prog[|prog| - 1].size > 0;
    }
  }

  // ---- the runtime ------------------------------------------------------------------------------

  const LABELS: map<Helper, int> :=
    map[Exec := 0, ExecHelper := 81, ExecReturn := 81 + HELPER_RETURN, ExecExit := 81 + HELPER_EXIT_AT,
        HaltHelper := 133, JumpLookup := 147, JumpHelper := 157, SysreqDHelper := 166]

  ghost predicate RuntimeAt(env: Env) {
    && env.helpers == LABELS
    && CodeAt(env, 0, EXEC) && CodeAt(env, 81, EXEC_HELPER) && CodeAt(env, 133, HALT_HELPER)
    && CodeAt(env, 147, JUMP_LOOKUP) && CodeAt(env, 157, JUMP_HELPER) && CodeAt(env, 166, SYSREQ_D_HELPER)
  }

  lemma RuntimeParts(env: Env)
    requires RuntimeAt(env) && Addressed(env)
    ensures CodeAt(env, 0, EXEC) && CodeAt(env, 81, EXEC_HELPER) && CodeAt(env, 133, HALT_HELPER) && CodeAt(env, 166, SYSREQ_D_HELPER)
    ensures ExecHelper in env.helpers && env.helpers[ExecHelper] == 81
    ensures ExecReturn in env.helpers && env.helpers[ExecReturn] == 112 && ExecExit in env.helpers && env.helpers[ExecExit] == 122
    ensures HaltHelper in env.helpers && env.helpers[HaltHelper] == 133
    ensures SysreqDHelper in env.helpers && env.helpers[SysreqDHelper] == 166
    ensures |env.addrs| == |env.code| + 1 && |env.code| >= 197
  {
    Lengths();
  }

  lemma Parts(env: Env, at: int, c: seq<Insn>, d: seq<Insn>)
    requires CodeAt(env, at, c + d)
    ensures CodeAt(env, at, c) && CodeAt(env, at + |c|, d)
  {
    CodeFrom(env, at, c + d, |c|);
    assert (c + d)[..|c|] == c && (c + d)[|c|..] == d;
  }

  lemma SixParts(env: Env, a: seq<Insn>, b: seq<Insn>, c: seq<Insn>, d: seq<Insn>, e: seq<Insn>, f: seq<Insn>)
    requires CodeAt(env, 0, a + (b + (c + (d + (e + f)))))
    requires |a| == 81 && |b| == 52 && |c| == 14 && |d| == 10 && |e| == 9
    ensures CodeAt(env, 0, a) && CodeAt(env, 81, b) && CodeAt(env, 133, c)
    ensures CodeAt(env, 147, d) && CodeAt(env, 157, e) && CodeAt(env, 166, f)
  {
    hide CodeAt;
    Parts(env, 0, a, b + (c + (d + (e + f))));
    Parts(env, 81, b, c + (d + (e + f)));
    Parts(env, 133, c, d + (e + f));
    Parts(env, 147, d, e + f);
    Parts(env, 157, e, f);
  }

  lemma RuntimeInPlace(env: Env)
    requires Starts(env.code) && env.helpers == LABELS
    ensures RuntimeAt(env)
  {
    hide CodeAt;
    assert CodeAt(env, 0, RUNTIME) by { StartsAt(env); }
    Lengths();
    SixParts(env, EXEC, EXEC_HELPER, HALT_HELPER, JUMP_LOOKUP, JUMP_HELPER, SYSREQ_D_HELPER);
  }

  lemma StartsAt(env: Env)
    requires Starts(env.code)
    ensures CodeAt(env, 0, RUNTIME)
  {
  }

  // ---- what the simulation asks for -------------------------------------------------------------

  /** The assembled code at its addresses, with what refers to it; the rest is the host's. */
  ghost function Assemble(prog: seq<Amx.Instr>, align: int -> nat, addrs: seq<Word>, host: Env): Env {
    var a := Assembly(prog, align);
    host.(code := a.code, addrs := addrs, labels := a.labels, ends := a.ends, helpers := LABELS,
          table := Table(InstrMap(prog, align), addrs), resumes := Resumes(prog, a.ends, LABELS[ExecReturn]))
  }

  ghost predicate TargetsKnown(prog: seq<Amx.Instr>) {
    forall k, d :: 0 <= k < |prog| && d in Targets(prog[k].op) ==> Amx.Find(prog, d) >= 0
  }

  lemma ResumesHold(env: Env, prog: seq<Amx.Instr>)
    requires LaidOut(env, prog) && Addressed(env) && env.helpers == LABELS && |env.addrs| > 166
    requires env.resumes == Resumes(prog, env.ends, LABELS[ExecReturn])
    ensures ReturnsResume(env, prog)
  {
    hide Code, CodeAt, Resumes, Addressed;
    ResumesHost(prog, env.ends, LABELS[ExecReturn]);
    forall r | r in env.resumes
      ensures 0 <= env.resumes[r] < |env.addrs| && (r != 0 ==> PcAt(env, prog, env.resumes[r], r))
    {
      if r != 0 {
        var k := ResumesBehind(prog, env.ends, LABELS[ExecReturn], r);
        ResumeOne(env, prog, k);
      }
    }
  }

  lemma CallsKnown(env: Env, prog: seq<Amx.Instr>, k: int)
    requires LaidOut(env, prog) && 0 <= k < |prog| && IsCall(prog[k])
    requires env.resumes == Resumes(prog, env.ends, LABELS[ExecReturn])
    ensures ReturnKnown(env, prog[k])
  {
    hide Code, CodeAt, Resumes;
    assert Placed(env, prog, k);
    ResumesOfCall(prog, env.ends, LABELS[ExecReturn], k);
  }

  lemma ResumeOne(env: Env, prog: seq<Amx.Instr>, k: int)
    requires LaidOut(env, prog) && Addressed(env) && 0 <= k < |prog| && prog[k].address in env.ends
    ensures 0 <= env.ends[prog[k].address] < |env.addrs| && PcAt(env, prog, env.ends[prog[k].address], Behind(prog[k]))
  {
    assert Placed(env, prog, k);
    FindNext(prog, k);
    if k + 1 < |prog| {
      assert Chained(env, prog, k);
      assert prog[k + 1].address == prog[k].address + prog[k].size;
    }
  }

  lemma SameImage(e: Env, env: Env, prog: seq<Amx.Instr>)
    requires env.code == e.code && env.labels == e.labels && env.ends == e.ends
    requires LaidOut(e, prog)
    ensures LaidOut(env, prog)
  {
    hide Code, Ordered;
    forall k | 0 <= k < |prog|
      ensures Placed(env, prog, k)
    {
      assert Placed(e, prog, k);
    }
    forall k | 0 <= k < |prog| - 1
      ensures Chained(env, prog, k)
    {
      assert Chained(e, prog, k);
    }
  }

  /** Assembling instructions that follow one another yields a correctly compiled program,
      provided every address that a jump, a call or a table names is the address of an
      instruction, at whatever ascending addresses the code is put. */
  lemma AssembleIsCompiled(prog: seq<Amx.Instr>, align: int -> nat, addrs: seq<Word>, host: Env)
    requires Ordered(prog) && TargetsKnown(prog) && Addressed(Assemble(prog, align, addrs, host))
    ensures var env := Assemble(prog, align, addrs, host);
            && Compiled(env, prog) && RuntimeAt(env)
            && Ascending(env.table) && PtrsAscend(env.table) && |env.table| == |prog|
  {
    hide Code, Lookup, Resumes, Assembly, InstrMap, Table;
    var env, m := Assemble(prog, align, addrs, host), InstrMap(prog, align);
    AssemblyLaidOut(prog, align);
    SameImage(Assembly(prog, align), env, prog);
    SettledIsCompiled(env, prog, m);
  }

  lemma SettledIsCompiled(env: Env, prog: seq<Amx.Instr>, m: seq<(int, int)>)
    requires LaidOut(env, prog) && Indexed(m, env.labels, prog) && Starts(env.code) && Addressed(env) && TargetsKnown(prog)
    requires env.helpers == LABELS && env.table == Table(m, env.addrs)
    requires env.resumes == Resumes(prog, env.ends, LABELS[ExecReturn])
    ensures Compiled(env, prog) && RuntimeAt(env)
    ensures Ascending(env.table) && PtrsAscend(env.table) && |env.table| == |prog|
  {
    hide Code, CodeAt, Lookup, Resumes, Indexed, Table, Padding, Ascending, PtrsAscend, Starts, Tabled, ReturnsResume, Addressed,
         Placed, Chained, HelpersPlaced, RuntimeAt, Ordered, ReturnKnown, Targets;
    assert |m| == |prog| by { IndexedLength(m, env.labels, prog); }
    RuntimeInPlace(env);
    HelpersThere(env);
    TableAscends(env, prog, m);
    TableFinds(env, prog, m);
    ResumesHold(env, prog);
    AllCallsKnown(env, prog);
  }

  lemma HelpersThere(env: Env)
    requires RuntimeAt(env) && Addressed(env)
    ensures HelpersPlaced(env) && |env.addrs| > 166
  {
    RuntimeFits(env);
  }

  lemma AllCallsKnown(env: Env, prog: seq<Amx.Instr>)
    requires LaidOut(env, prog) && env.resumes == Resumes(prog, env.ends, LABELS[ExecReturn])
    ensures forall k :: 0 <= k < |prog| && IsCall(prog[k]) ==> ReturnKnown(env, prog[k])
  {
    hide Code, CodeAt, Resumes, LaidOut;
    forall k | 0 <= k < |prog| && IsCall(prog[k])
      ensures ReturnKnown(env, prog[k])
    {
      CallsKnown(env, prog, k);
    }
  }

  lemma RuntimeFits(env: Env)
    requires RuntimeAt(env) && Addressed(env)
    ensures |env.addrs| > 166
  {
  }
}
