/** Jumps, calls, returns, indirect jumps and stops are matched by runs of the compiled code. */
module SimControl {
  import opened Word32
  import opened X86
  import Amx
  import opened Emit
  import opened Relation
  import opened Layout
  import SimMem
  import SimAcc
  import opened SimStack
  import opened SimBlock

  /** At the entry of HaltHelper: the machine registers are those of h, the error is in edi and
      one cell is pushed. */
  ghost predicate AtHalt(env: Env, cfg: Amx.Cfg, h: Amx.State, e: Word, d: Conf) {
    && HaltHelper in env.helpers && d.pc == env.helpers[HaltHelper]
    && d.s.regs.edi == e
    && d.s.regs.esp == Sub(Add(env.base, h.stk), 4)
    && Has4(d.s.data, Sub(h.stk, 4))
    && Core(env, cfg, h, SetReg(d.s, ESP, Add(env.base, h.stk)))
  }

  /** The run that matches one step. */
  ghost predicate Matches(env: Env, cfg: Amx.Cfg, prog: seq<Amx.Instr>, c: Conf, o: Amx.Outcome, d: Conf) {
    && Reaches(env, c, d)
    && Frame(c.s, d.s)
    && match o
       case Next(b) => Rel(env, cfg, prog, b, d)
       case Halted(h, e) => AtHalt(env, cfg, h, e, d)
       case Done(b) => Core(env, cfg, b, d.s) && ExecReturn in env.helpers && d.pc == env.helpers[ExecReturn]
       case Stuck => false
  }

  ghost predicate Matched(env: Env, cfg: Amx.Cfg, prog: seq<Amx.Instr>, c: Conf, o: Amx.Outcome) {
    o.Stuck? || exists d: Conf :: Matches(env, cfg, prog, c, o, d)
  }

  lemma StuckMatched(env: Env, cfg: Amx.Cfg, prog: seq<Amx.Instr>, c: Conf)
    ensures Matched(env, cfg, prog, c, Amx.Stuck)
  {
  }

  lemma FrameSelf(x: State)
    ensures Frame(x, x)
  {
  }

  lemma FrameTrans(x: State, y: State, z: State)
    requires Frame(x, y) && Frame(y, z)
    ensures Frame(x, z)
  {
  }

  /** A run in front of a matched one. */
  lemma Before(env: Env, cfg: Amx.Cfg, prog: seq<Amx.Instr>, c: Conf, d: Conf, o: Amx.Outcome)
    requires Reaches(env, c, d) && Frame(c.s, d.s) && Matched(env, cfg, prog, d, o)
    ensures Matched(env, cfg, prog, c, o)
  {
    if !o.Stuck? {
      var e: Conf :| Matches(env, cfg, prog, d, o, e);
      ReachesTrans(env, c, d, e);
      FrameTrans(c.s, d.s, e.s);
      assert Matches(env, cfg, prog, c, o, e);
    }
  }

  // ---- straight-line operations ------------------------------------------------

  lemma CoreCip(env: Env, cfg: Amx.Cfg, a: Amx.State, x: State, cip: int)
    requires Core(env, cfg, a, x)
    ensures Core(env, cfg, a.(cip := cip), x)
  {
  }

  lemma EmptyCode(env: Env, cfg: Amx.Cfg, a: Amx.State, x: State)
    requires Core(env, cfg, a, x)
    ensures Simulates(env, cfg, [], x, a)
  {
    FrameSelf(x);
  }

  lemma PlainSimulated(env: Env, cfg: Amx.Cfg, i: Amx.Instr, a: Amx.State, x: State, b: Amx.State)
    requires Consistent(env, cfg) && Core(env, cfg, a, x)
    requires !i.op.Ctl? && !(i.op.Blk? && i.op.blk.Cmps?)
    requires Amx.Apply(cfg, i, a) == Some(b)
    ensures Simulates(env, cfg, Code(i), x, b)
  {
    match i.op
    case Mem(op) => SimMem.MemSimulated(env, cfg, op, a, x, b);
    case Acc(op) => SimAcc.AccSimulated(env, cfg, op, a, x, b);
    case Stk(op) => SimStack.StackSimulated(env, cfg, op, i.address + i.size, a, x, b);
    case Blk(op) =>
      if op.Movs? { SimMovs(env, cfg, op.bytes, a, x, b); } else { SimFill(env, cfg, op.bytes, a, x, b); }
    case CaseTbl => EmptyCode(env, cfg, a, x);
    case Nop => EmptyCode(env, cfg, a, x);
    case Break => EmptyCode(env, cfg, a, x);
  }

  // ---- jumps ------------------------------------------------------------------------

  /** Arriving at a label of the program. */
  lemma Arrive(env: Env, cfg: Amx.Cfg, prog: seq<Amx.Instr>, d: int, a: Amx.State, c: Conf, y: State)
    requires d in env.labels && PcAt(env, prog, env.labels[d], d)
    requires Core(env, cfg, a, y) && Frame(c.s, y) && Reaches(env, c, Conf(y, env.labels[d]))
    ensures Matched(env, cfg, prog, c, Amx.Next(a.(cip := d)))
  {
    CoreCip(env, cfg, a, y, d);
    assert Matches(env, cfg, prog, c, Amx.Next(a.(cip := d)), Conf(y, env.labels[d]));
  }

  /** Arriving behind the code of an instruction. */
  lemma Behind(env: Env, cfg: Amx.Cfg, prog: seq<Amx.Instr>, i: Amx.Instr, a: Amx.State, c: Conf, y: State)
    requires i.address in env.ends && PcAt(env, prog, env.ends[i.address], i.address + i.size)
    requires Core(env, cfg, a, y) && Frame(c.s, y) && Reaches(env, c, Conf(y, env.ends[i.address]))
    ensures Matched(env, cfg, prog, c, Amx.Next(a.(cip := i.address + i.size)))
  {
    CoreCip(env, cfg, a, y, i.address + i.size);
    assert Matches(env, cfg, prog, c, Amx.Next(a.(cip := i.address + i.size)), Conf(y, env.ends[i.address]));
  }

  lemma FromSimulates(env: Env, cfg: Amx.Cfg, prog: seq<Amx.Instr>, i: Amx.Instr, x: State, b: Amx.State, code: seq<Insn>)
    requires i.address in env.labels && i.address in env.ends && PcAt(env, prog, env.ends[i.address], i.address + i.size)
    requires CodeAt(env, env.labels[i.address], code)
    requires env.ends[i.address] == env.labels[i.address] + |code|
    requires Simulates(env, cfg, code, x, b)
    ensures Matched(env, cfg, prog, Conf(x, env.labels[i.address]), Amx.Next(b.(cip := i.address + i.size)))
  {
    var y := Effects(env, code, x).value;
    Straight(env, code, x, env.labels[i.address], y);
    Behind(env, cfg, prog, i, b, Conf(x, env.labels[i.address]), y);
  }

  lemma JumpStep(env: Env, x: State, at: int, t: Target, k: int)
    requires 0 <= at < |env.code| && env.code[at] == Jmp(t) && Resolve(env, at, t) == Some(k)
    ensures Reaches(env, Conf(x, at), Conf(x, k))
  {
    assert Step(env, Conf(x, at)) == Some(Conf(x, k));
    ReachesStep(env, Conf(x, at), Conf(x, k));
  }

  lemma JccStep(env: Env, x: State, at: int, cc: Cond, t: Target, k: int)
    requires 0 <= at < |env.code| && env.code[at] == Jcc(cc, t) && x.fl.Flags?
    requires Holds(cc, x.fl) ==> Resolve(env, at, t) == Some(k)
    ensures Reaches(env, Conf(x, at), Conf(x, if Holds(cc, x.fl) then k else at + 1))
  {
    var d := Conf(x, if Holds(cc, x.fl) then k else at + 1);
    assert Step(env, Conf(x, at)) == Some(d);
    ReachesStep(env, Conf(x, at), d);
  }

  /** A test or compare followed by a conditional jump to a label. */
  lemma TestAndJump(env: Env, x: State, at: int, i: Insn, cc: Cond, t: Target, fl: Flags, k: int)
    requires CodeAt(env, at, [i, Jcc(cc, t)])
    requires Effect(env, i, x) == Some(x.(fl := fl)) && fl.Flags?
    requires Holds(cc, fl) ==> Resolve(env, at + 1, t) == Some(k)
    ensures Reaches(env, Conf(x, at), Conf(x.(fl := fl), if Holds(cc, fl) then k else at + 2))
  {
    CodeFrom(env, at, [i, Jcc(cc, t)], 0);
    CodeFrom(env, at, [i, Jcc(cc, t)], 1);
    PlainStep(env, i, x, at, x.(fl := fl));
    JccStep(env, x.(fl := fl), at + 1, cc, t, k);
    ReachesTrans(env, Conf(x, at), Conf(x.(fl := fl), at + 1), Conf(x.(fl := fl), if Holds(cc, fl) then k else at + 2));
  }

  lemma CoreFlags(env: Env, cfg: Amx.Cfg, a: Amx.State, x: State, fl: Flags)
    requires Core(env, cfg, a, x)
    ensures Core(env, cfg, a, x.(fl := fl)) && Frame(x, x.(fl := fl))
  {
    assert x.(fl := fl) == Scratch(x, x.regs.edx, x.regs.esi, x.regs.edi, fl);
    CoreScratch(env, cfg, a, x, x.regs.edx, x.regs.esi, x.regs.edi, fl);
  }

  /** Conditional jumps: taken exactly when the specified relation holds. */
  lemma SimCondJump(env: Env, cfg: Amx.Cfg, prog: seq<Amx.Instr>, k: int, a: Amx.State, x: State,
                    i: Insn, cc: Cond, d: int, fl: Flags)
    requires Compiled(env, prog) && 0 <= k < |prog| && Placed(env, prog, k)
    requires Core(env, cfg, a, x)
    requires Code(prog[k]) == [i, Jcc(cc, ToCode(d))] && d in Targets(prog[k].op)
    requires Effect(env, i, x) == Some(x.(fl := fl)) && fl.Flags?
    ensures Matched(env, cfg, prog, Conf(x, env.labels[prog[k].address]), Amx.Branch(a, prog[k], Holds(cc, fl), d))
  {
    hide Effects, Effect, Step, Run, Reaches;
    var at := env.labels[prog[k].address];
    AtTarget(env, prog, k, d);
    TestAndJump(env, x, at, i, cc, ToCode(d), fl, env.labels[d]);
    CoreFlags(env, cfg, a, x, fl);
    FallThrough(env, prog, k);
    CondOutcome(env, cfg, prog, prog[k], a, Conf(x, at), x.(fl := fl), Holds(cc, fl), d);
  }

  lemma CondOutcome(env: Env, cfg: Amx.Cfg, prog: seq<Amx.Instr>, i: Amx.Instr, a: Amx.State, c: Conf, y: State, taken: bool, d: int)
    requires i.address in env.ends && PcAt(env, prog, env.ends[i.address], i.address + i.size)
    requires d in env.labels && PcAt(env, prog, env.labels[d], d)
    requires Core(env, cfg, a, y) && Frame(c.s, y)
    requires Reaches(env, c, Conf(y, if taken then env.labels[d] else env.ends[i.address]))
    ensures Matched(env, cfg, prog, c, Amx.Branch(a, i, taken, d))
  {
    if taken {
      Arrive(env, cfg, prog, d, a, c, y);
    } else {
      Behind(env, cfg, prog, i, a, c, y);
    }
  }

  lemma SimJump(env: Env, cfg: Amx.Cfg, prog: seq<Amx.Instr>, k: int, a: Amx.State, x: State, d: int)
    requires Compiled(env, prog) && 0 <= k < |prog| && Placed(env, prog, k)
    requires Core(env, cfg, a, x)
    requires prog[k].op == Amx.Ctl(Amx.Jump(d))
    ensures Matched(env, cfg, prog, Conf(x, env.labels[prog[k].address]), Amx.Branch(a, prog[k], true, d))
  {
    var at := env.labels[prog[k].address];
    AtTarget(env, prog, k, d);
    assert Code(prog[k]) == [Jmp(ToCode(d))];
    CodeFrom(env, at, [Jmp(ToCode(d))], 0);
    JumpStep(env, x, at, ToCode(d), env.labels[d]);
    FrameSelf(x);
    Arrive(env, cfg, prog, d, a, Conf(x, at), x);
  }

  lemma TestEffect(env: Env, x: State)
    ensures Effect(env, Test(EAX, R(EAX)), x) == Some(x.(fl := TestFlags(x.regs.eax)))
  {
    BitsSelf(x.regs.eax);
  }

  lemma CmpEffect(env: Env, x: State, src: Opd, v: Word)
    requires Read(env, x, src) == Some(v)
    ensures Effect(env, Cmp(EAX, src), x) == Some(x.(fl := CmpFlags(x.regs.eax, v, M)))
  {
  }

  lemma SimZero(env: Env, cfg: Amx.Cfg, prog: seq<Amx.Instr>, k: int, a: Amx.State, x: State)
    requires Compiled(env, prog) && 0 <= k < |prog| && Placed(env, prog, k)
    requires Core(env, cfg, a, x)
    requires prog[k].op.Ctl? && (prog[k].op.ctl.JZer? || prog[k].op.ctl.JNz?)
    ensures Matched(env, cfg, prog, Conf(x, env.labels[prog[k].address]), Amx.Transfer(cfg, prog, prog[k], prog[k].op.ctl, a))
  {
    hide Compiled, Matched, Placed, MemRel, Effects, Reaches, Step, Run;
    TestEffect(env, x);
    match prog[k].op.ctl
    case JZer(d) =>
      assert Code(prog[k]) == [Test(EAX, R(EAX)), Jcc(E, ToCode(d))];
      SimCondJump(env, cfg, prog, k, a, x, Test(EAX, R(EAX)), E, d, TestFlags(a.pri));
    case JNz(d) =>
      assert Code(prog[k]) == [Test(EAX, R(EAX)), Jcc(NE, ToCode(d))];
      SimCondJump(env, cfg, prog, k, a, x, Test(EAX, R(EAX)), NE, d, TestFlags(a.pri));
  }

  lemma SimRelation(env: Env, cfg: Amx.Cfg, prog: seq<Amx.Instr>, k: int, a: Amx.State, x: State)
    requires Compiled(env, prog) && 0 <= k < |prog| && Placed(env, prog, k)
    requires Core(env, cfg, a, x)
    requires prog[k].op.Ctl? && prog[k].op.ctl.JRel?
    ensures Matched(env, cfg, prog, Conf(x, env.labels[prog[k].address]), Amx.Transfer(cfg, prog, prog[k], prog[k].op.ctl, a))
  {
    hide Compiled, Matched, Placed, MemRel, Effects, Reaches, Step, Run;
    var r, d := prog[k].op.ctl.rel, prog[k].op.ctl.dest;
    CmpEffect(env, x, R(ECX), a.alt);
    SimAcc.CondDecides(r, a.pri, a.alt);
    assert Code(prog[k]) == [Cmp(EAX, R(ECX)), Jcc(CondOf(r), ToCode(d))];
    SimCondJump(env, cfg, prog, k, a, x, Cmp(EAX, R(ECX)), CondOf(r), d, CmpFlags(a.pri, a.alt, M));
  }

  lemma SimBranches(env: Env, cfg: Amx.Cfg, prog: seq<Amx.Instr>, k: int, a: Amx.State, x: State)
    requires Compiled(env, prog) && 0 <= k < |prog| && Placed(env, prog, k)
    requires Core(env, cfg, a, x)
    requires prog[k].op.Ctl? && (prog[k].op.ctl.JZer? || prog[k].op.ctl.JNz? || prog[k].op.ctl.JRel?)
    ensures Matched(env, cfg, prog, Conf(x, env.labels[prog[k].address]), Amx.Transfer(cfg, prog, prog[k], prog[k].op.ctl, a))
  {
    hide Compiled, Matched, Placed, Core, Effects, Reaches, Step, Run;
    if prog[k].op.ctl.JRel? { SimRelation(env, cfg, prog, k, a, x); } else { SimZero(env, cfg, prog, k, a, x); }
  }

  // ---- SWITCH ---------------------------------------------------------------------------

  /** The chain of compares reaches the first record with the value of eax, or its end. */
  lemma {:induction false} ChainRuns(env: Env, cases: seq<Amx.Case>, x: State, at: int)
    requires CodeAt(env, at, CaseChain(cases)) && x.fl.Flags?
    requires forall c :: c in cases ==> c.address in env.labels
    ensures exists fl: Flags :: fl.Flags? && Reaches(env, Conf(x, at), Conf(x.(fl := fl),
              if exists c :: c in cases && c.value == x.regs.eax
              then (var d := Amx.Match(cases, -1, x.regs.eax); if d in env.labels then env.labels[d] else 0)
              else at + |CaseChain(cases)|))
    decreases |cases|
  {
    hide Effects, Effect, Step, Run;
    if |cases| == 0 {
      ReachesSelf(env, Conf(x, at));
      assert x == x.(fl := x.fl);
    } else {
      var h := [Cmp(EAX, I(cases[0].value)), Jcc(E, ToCode(cases[0].address))];
      assert CaseChain(cases) == h + CaseChain(cases[1..]);
      CodeFrom(env, at, CaseChain(cases), 2);
      assert CaseChain(cases)[..2] == h && CaseChain(cases)[2..] == CaseChain(cases[1..]);
      var fl := CmpFlags(x.regs.eax, cases[0].value, M);
      CmpEffect(env, x, I(cases[0].value), cases[0].value);
      assert cases[0] in cases;
      TestAndJump(env, x, at, h[0], E, ToCode(cases[0].address), fl, env.labels[cases[0].address]);
      if cases[0].value != x.regs.eax {
        ChainRuns(env, cases[1..], x.(fl := fl), at + 2);
        var f: Flags :| f.Flags? && Reaches(env, Conf(x.(fl := fl), at + 2), Conf(x.(fl := fl).(fl := f),
              if exists c :: c in cases[1..] && c.value == x.regs.eax
              then (var d := Amx.Match(cases[1..], -1, x.regs.eax); if d in env.labels then env.labels[d] else 0)
              else at + 2 + |CaseChain(cases[1..])|));
        assert (exists c :: c in cases && c.value == x.regs.eax) <==> (exists c :: c in cases[1..] && c.value == x.regs.eax) by {
          forall c | c in cases && c.value == x.regs.eax
            ensures c in cases[1..]
          {
          }
        }
        ReachesTrans(env, Conf(x, at), Conf(x.(fl := fl), at + 2), Conf(x.(fl := f),
              if exists c :: c in cases && c.value == x.regs.eax
              then (var d := Amx.Match(cases, -1, x.regs.eax); if d in env.labels then env.labels[d] else 0)
              else at + |CaseChain(cases)|));
      }
    }
  }

  lemma {:induction false} NoMatch(cases: seq<Amx.Case>, d: int, v: Word)
    requires forall c :: c in cases ==> c.value != v
    ensures Amx.Match(cases, d, v) == d
  {
    if |cases| > 0 {
      assert cases[0] in cases;
      NoMatch(cases[1..], d, v);
    }
  }

  lemma {:induction false} SomeMatch(cases: seq<Amx.Case>, d: int, v: Word)
    requires exists c :: c in cases && c.value == v
    ensures Amx.Match(cases, d, v) == Amx.Match(cases, -1, v)
    ensures exists c :: c in cases && c.address == Amx.Match(cases, d, v)
  {
    if cases[0].value != v {
      var c :| c in cases && c.value == v;
      assert c in cases[1..];
      SomeMatch(cases[1..], d, v);
      var e :| e in cases[1..] && e.address == Amx.Match(cases[1..], d, v);
      assert e in cases;
    } else {
      assert cases[0] in cases;
    }
  }

  /** Every address a switch names has a label. */
  ghost predicate CasesKnown(env: Env, cases: seq<Amx.Case>, d: int) {
    d in env.labels && forall c :: c in cases ==> c.address in env.labels
  }

  /** Where a switch goes. */
  ghost predicate SwitchReaches(env: Env, cases: seq<Amx.Case>, d: int, x: State, at: int) {
    var t := Amx.Match(cases, d, x.regs.eax);
    t in env.labels && exists fl: Flags :: Reaches(env, Conf(x, at), Conf(x.(fl := fl), env.labels[t]))
  }

  /** From the chain, to the first matching record or the default. */
  lemma ChainOrDefault(env: Env, cases: seq<Amx.Case>, d: int, x: State, at: int)
    requires CasesKnown(env, cases, d)
    requires CodeAt(env, at, CaseChain(cases) + [Jmp(ToCode(d))]) && x.fl.Flags?
    ensures SwitchReaches(env, cases, d, x, at)
  {
    var n := |CaseChain(cases)|;
    var v := x.regs.eax;
    CodeFrom(env, at, CaseChain(cases) + [Jmp(ToCode(d))], n);
    assert (CaseChain(cases) + [Jmp(ToCode(d))])[..n] == CaseChain(cases);
    ChainRuns(env, cases, x, at);
    if exists c :: c in cases && c.value == v {
      SomeMatch(cases, d, v);
    } else {
      NoMatch(cases, d, v);
      var fl: Flags :| fl.Flags? && Reaches(env, Conf(x, at), Conf(x.(fl := fl), at + n));
      JumpStep(env, x.(fl := fl), at + n, ToCode(d), env.labels[d]);
      ReachesTrans(env, Conf(x, at), Conf(x.(fl := fl), at + n), Conf(x.(fl := fl), env.labels[d]));
    }
  }

  lemma SwitchBefore(env: Env, cases: seq<Amx.Case>, d: int, x: State, fl: Flags, at: int, to: int)
    requires Reaches(env, Conf(x, at), Conf(x.(fl := fl), to))
    requires SwitchReaches(env, cases, d, x.(fl := fl), to)
    ensures SwitchReaches(env, cases, d, x, at)
  {
    var t := Amx.Match(cases, d, x.regs.eax);
    var f: Flags :| Reaches(env, Conf(x.(fl := fl), to), Conf(x.(fl := fl).(fl := f), env.labels[t]));
    assert x.(fl := fl).(fl := f) == x.(fl := f);
    ReachesTrans(env, Conf(x, at), Conf(x.(fl := fl), to), Conf(x.(fl := f), env.labels[t]));
  }

  /** One half of the range test: values beyond the bound have no record. */
  lemma BoundRuns(env: Env, cases: seq<Amx.Case>, d: int, x: State, at: int, r: Amx.Rel, bound: Word)
    requires CasesKnown(env, cases, d)
    requires CodeAt(env, at, [Cmp(EAX, I(bound)), Jcc(CondOf(r), ToCode(d))])
    requires Amx.Related(r, x.regs.eax, bound) ==> forall c :: c in cases ==> c.value != x.regs.eax
    ensures var fl := CmpFlags(x.regs.eax, bound, M);
            if Amx.Related(r, x.regs.eax, bound) then SwitchReaches(env, cases, d, x, at)
            else Reaches(env, Conf(x, at), Conf(x.(fl := fl), at + 2))
  {
    var fl := CmpFlags(x.regs.eax, bound, M);
    CmpEffect(env, x, I(bound), bound);
    TestAndJump(env, x, at, Cmp(EAX, I(bound)), CondOf(r), ToCode(d), fl, env.labels[d]);
    SimAcc.CondDecides(r, x.regs.eax, bound);
    if Amx.Related(r, x.regs.eax, bound) { NoMatch(cases, d, x.regs.eax); }
  }

  lemma {:induction false} SwitchSplit(env: Env, cases: seq<Amx.Case>, d: int, at: int)
    requires |cases| > 0 && CodeAt(env, at, SwitchCode(cases, d))
    ensures CodeAt(env, at, [Cmp(EAX, I(MinCase(cases))), Jcc(L, ToCode(d))])
    ensures CodeAt(env, at + 2, [Cmp(EAX, I(MaxCase(cases))), Jcc(G, ToCode(d))])
    ensures CodeAt(env, at + 4, CaseChain(cases) + [Jmp(ToCode(d))])
  {
    var low, high := [Cmp(EAX, I(MinCase(cases))), Jcc(L, ToCode(d))], [Cmp(EAX, I(MaxCase(cases))), Jcc(G, ToCode(d))];
    var rest := CaseChain(cases) + [Jmp(ToCode(d))];
    assert SwitchCode(cases, d) == low + (high + rest);
    CodeFrom(env, at, low + (high + rest), 2);
    assert (low + (high + rest))[..2] == low && (low + (high + rest))[2..] == high + rest;
    CodeFrom(env, at + 2, high + rest, 2);
    assert (high + rest)[..2] == high && (high + rest)[2..] == rest;
  }

  /** The range test in front of the chain changes nothing: with it or without, a switch goes
      to the first matching record or the default. */
  lemma FilterRuns(env: Env, cases: seq<Amx.Case>, d: int, x: State, at: int)
    requires CasesKnown(env, cases, d)
    requires |cases| > 0 && CodeAt(env, at, SwitchCode(cases, d))
    ensures SwitchReaches(env, cases, d, x, at)
  {
    var v := x.regs.eax;
    var lo, hi := MinCase(cases), MaxCase(cases);
    SwitchSplit(env, cases, d, at);
    BoundRuns(env, cases, d, x, at, Amx.SLess, lo);
    if Int(v) >= Int(lo) {
      var f1, f2 := CmpFlags(v, lo, M), CmpFlags(v, hi, M);
      var y := x.(fl := f1);
      BoundRuns(env, cases, d, y, at + 2, Amx.SGrtr, hi);
      if Int(v) <= Int(hi) {
        ChainOrDefault(env, cases, d, y.(fl := f2), at + 4);
        SwitchBefore(env, cases, d, y, f2, at + 2, at + 4);
      }
      SwitchBefore(env, cases, d, x, f1, at, at + 2);
    }
  }

  lemma SwitchTarget(cases: seq<Amx.Case>, d: int, v: Word)
    ensures Amx.Match(cases, d, v) in Targets(Amx.Ctl(Amx.Switch(cases, d)))
  {
    if exists c :: c in cases && c.value == v {
      SomeMatch(cases, d, v);
    } else {
      NoMatch(cases, d, v);
    }
  }

  lemma SwitchLabels(env: Env, prog: seq<Amx.Instr>, k: int, cases: seq<Amx.Case>, d: int)
    requires Compiled(env, prog) && 0 <= k < |prog| && prog[k].op == Amx.Ctl(Amx.Switch(cases, d))
    ensures CasesKnown(env, cases, d)
  {
    AtTarget(env, prog, k, d);
    forall c | c in cases
      ensures c.address in env.labels
    {
      AtTarget(env, prog, k, c.address);
    }
  }

  lemma SimSwitch(env: Env, cfg: Amx.Cfg, prog: seq<Amx.Instr>, k: int, a: Amx.State, x: State, cases: seq<Amx.Case>, d: int)
    requires Compiled(env, prog) && 0 <= k < |prog| && Placed(env, prog, k)
    requires Core(env, cfg, a, x) && prog[k].op == Amx.Ctl(Amx.Switch(cases, d))
    ensures Matched(env, cfg, prog, Conf(x, env.labels[prog[k].address]), Amx.Branch(a, prog[k], true, Amx.Match(cases, d, a.pri)))
  {
    hide Effects, Effect, Step, Run, Reaches;
    var at := env.labels[prog[k].address];
    assert Code(prog[k]) == SwitchCode(cases, d);
    var t := Amx.Match(cases, d, a.pri);
    SwitchLabels(env, prog, k, cases, d);
    if |cases| == 0 {
      assert SwitchCode(cases, d) == [Jmp(ToCode(d))];
      CodeFrom(env, at, [Jmp(ToCode(d))], 0);
      JumpStep(env, x, at, ToCode(d), env.labels[d]);
      assert x == x.(fl := x.fl);
    } else {
      FilterRuns(env, cases, d, x, at);
    }
    var fl: Flags :| Reaches(env, Conf(x, at), Conf(x.(fl := fl), env.labels[t]));
    CoreFlags(env, cfg, a, x, fl);
    SwitchTarget(cases, d, a.pri);
    AtTarget(env, prog, k, t);
    Arrive(env, cfg, prog, t, a, Conf(x, at), x.(fl := fl));
  }

  // ---- CMPS ---------------------------------------------------------------------------------

  ghost predicate ResultPlaced(env: Env, at: int) {
    && 0 <= at && at + 8 <= |env.code|
    && env.code[at] == Jcc(A, Skip(2)) && env.code[at + 1] == Jcc(B, Skip(3)) && env.code[at + 2] == Jcc(E, Skip(4))
    && env.code[at + 3] == Mov(R(EAX), I(1)) && env.code[at + 4] == Jmp(Skip(3))
    && env.code[at + 5] == Mov(R(EAX), I(M - 1)) && env.code[at + 6] == Jmp(Skip(1))
    && env.code[at + 7] == Alu(XorOp, R(EAX), R(EAX))
  }

  lemma ResultCode(env: Env, at: int)
    requires CodeAt(env, at, CMPS_RESULT)
    ensures ResultPlaced(env, at)
  {
    hide CodeAt;
    var c := [Jcc(A, Skip(2)), Jcc(B, Skip(3)), Jcc(E, Skip(4)), Mov(R(EAX), I(1))];
    var d := [Jmp(Skip(3)), Mov(R(EAX), I(M - 1)), Jmp(Skip(1)), Alu(XorOp, R(EAX), R(EAX))];
    assert CMPS_RESULT == c + d;
    CodeFrom(env, at, c + d, 4);
    assert (c + d)[..4] == c && (c + d)[4..] == d;
    FourItems(env, at, c);
    FourItems(env, at + 4, d);
  }

  lemma FourItems(env: Env, at: int, c: seq<Insn>)
    requires CodeAt(env, at, c) && |c| == 4
    ensures 0 <= at && at + 4 <= |env.code|
    ensures env.code[at] == c[0] && env.code[at + 1] == c[1] && env.code[at + 2] == c[2] && env.code[at + 3] == c[3]
  {
    CodeItem(env, at, c, 0);
    CodeItem(env, at, c, 1);
    CodeItem(env, at, c, 2);
    CodeItem(env, at, c, 3);
  }

  lemma AboveRuns(env: Env, x: State, at: int, r: int)
    requires ResultPlaced(env, at) && Reports(x.fl, r) && r > 0
    ensures Reaches(env, Conf(x, at), Conf(SetReg(x, EAX, 1), at + 8))
  {
    hide Effects, Step, Run, Reaches;
    var y := SetReg(x, EAX, 1);
    JccStep(env, x, at, A, Skip(2), at + 3);
    PlainStep(env, Mov(R(EAX), I(1)), x, at + 3, y);
    JumpStep(env, y, at + 4, Skip(3), at + 8);
    ReachesTrans(env, Conf(x, at), Conf(x, at + 3), Conf(y, at + 4));
    ReachesTrans(env, Conf(x, at), Conf(y, at + 4), Conf(y, at + 8));
  }

  lemma NotAbove(env: Env, x: State, at: int, r: int)
    requires ResultPlaced(env, at) && Reports(x.fl, r) && r <= 0
    ensures Reaches(env, Conf(x, at), Conf(x, if r < 0 then at + 5 else at + 7))
  {
    hide Effects, Effect, Step, Run, Reaches;
    JccStep(env, x, at, A, Skip(2), at + 3);
    JccStep(env, x, at + 1, B, Skip(3), at + 5);
    if r < 0 {
      ReachesTrans(env, Conf(x, at), Conf(x, at + 1), Conf(x, at + 5));
    } else {
      JccStep(env, x, at + 2, E, Skip(4), at + 7);
      ReachesTrans(env, Conf(x, at), Conf(x, at + 1), Conf(x, at + 2));
      ReachesTrans(env, Conf(x, at), Conf(x, at + 2), Conf(x, at + 7));
    }
  }

  lemma BelowRuns(env: Env, x: State, at: int, r: int)
    requires ResultPlaced(env, at) && Reports(x.fl, r) && r < 0
    ensures Reaches(env, Conf(x, at), Conf(SetReg(x, EAX, M - 1), at + 8))
  {
    var y := SetReg(x, EAX, M - 1);
    NotAbove(env, x, at, r);
    PlainStep(env, Mov(R(EAX), I(M - 1)), x, at + 5, y);
    JumpStep(env, y, at + 6, Skip(1), at + 8);
    ReachesTrans(env, Conf(x, at), Conf(x, at + 5), Conf(y, at + 6));
    ReachesTrans(env, Conf(x, at), Conf(y, at + 6), Conf(y, at + 8));
  }

  lemma ClearsEax(env: Env, x: State)
    ensures Effect(env, Alu(XorOp, R(EAX), R(EAX)), x) == Some(SetReg(Undef(x), EAX, 0))
  {
    hide Xor;
    BitsSelf(x.regs.eax);
  }

  lemma EqualRuns(env: Env, x: State, at: int)
    requires ResultPlaced(env, at) && Reports(x.fl, 0)
    ensures Reaches(env, Conf(x, at), Conf(SetReg(Undef(x), EAX, 0), at + 8))
  {
    hide Effects, Effect, Reaches, Step, Run;
    NotAbove(env, x, at, 0);
    ClearsEax(env, x);
    PlainStep(env, Alu(XorOp, R(EAX), R(EAX)), x, at + 7, SetReg(Undef(x), EAX, 0));
    ReachesTrans(env, Conf(x, at), Conf(x, at + 7), Conf(SetReg(Undef(x), EAX, 0), at + 8));
  }

  /** The jumps behind the block comparison put -1, 0 or 1 in eax. */
  lemma ResultRuns(env: Env, x: State, at: int, r: int) returns (fl: Flags)
    requires ResultPlaced(env, at) && Reports(x.fl, r) && -1 <= r <= 1
    ensures Reaches(env, Conf(x, at), Conf(SetReg(x, EAX, Wrap(r)).(fl := fl), at + 8))
  {
    hide Effects, Effect, Step, Run, Reaches, ResultPlaced;
    if r > 0 {
      AboveRuns(env, x, at, r);
      fl := x.fl;
      assert SetReg(x, EAX, 1) == SetReg(x, EAX, Wrap(r)).(fl := fl);
    } else if r < 0 {
      BelowRuns(env, x, at, r);
      fl := x.fl;
      assert SetReg(x, EAX, M - 1) == SetReg(x, EAX, Wrap(r)).(fl := fl);
    } else {
      EqualRuns(env, x, at);
      fl := NoFlags;
      assert SetReg(Undef(x), EAX, 0) == SetReg(x, EAX, Wrap(r)).(fl := fl);
    }
  }

  lemma {:induction false} CompareRange(m: Amx.Memory, p: int, q: int, n: nat)
    requires Amx.PlainBytes(m, p, n) && Amx.PlainBytes(m, q, n)
    ensures -1 <= Amx.CompareBlocks(m, p, q, n) <= 1
    decreases n
  {
    if n > 0 && m[p].b == m[q].b { CompareRange(m, p + 1, q + 1, n - 1); }
  }

  /** The emitted code of CMPS puts r in eax: the sign of the comparison if there is anything to
      compare, else what the flags it was entered with say. */
  lemma CmpsRuns(env: Env, cfg: Amx.Cfg, a: Amx.State, x: State, at: int, n: Word) returns (r: int, z: State)
    requires Consistent(env, cfg) && Core(env, cfg, a, x) && Comparable(cfg, a, n)
    requires CodeAt(env, at, BlockCode(Amx.Cmps(n))) && (n > 0 || x.fl.Flags?)
    ensures r == if n > 0 then Amx.CompareBlocks(a.mem, a.alt, a.pri, n) else Said(x.fl)
    ensures -1 <= r <= 1 && z.regs.eax == Wrap(r)
    ensures Core(env, cfg, a.(pri := Wrap(r)), z) && Frame(x, z) && Reaches(env, Conf(x, at), Conf(z, at + 14))
  {
    hide Effects, Effect, Step, Run, Reaches, CodeAt, ResultPlaced, Amx.CompareBlocks, MemRel;
    var pre := CMPS_PREFIX + [Mov(R(ECX), I(n)), RepeCmpsb, Pop(R(ECX))];
    assert |pre| == 6;
    CodeParts(env, at, pre, CMPS_RESULT);
    CmpsFlags(env, cfg, n, a, x);
    var y := Effects(env, pre, x).value;
    Straight(env, pre, x, at, y);
    CompareRange(a.mem, a.alt, a.pri, n);
    r := if n > 0 then Amx.CompareBlocks(a.mem, a.alt, a.pri, n) else Said(x.fl);
    ResultCode(env, at + 6);
    var fl := ResultRuns(env, y, at + 6, r);
    z := SetReg(y, EAX, Wrap(r)).(fl := fl);
    ReachesTrans(env, Conf(x, at), Conf(y, at + 6), Conf(z, at + 14));
    CoreAcc(env, cfg, Amx.PRI, Wrap(r), a, y);
    CoreFlags(env, cfg, a.(pri := Wrap(r)), SetReg(y, EAX, Wrap(r)), fl);
    FrameTrans(x, y, z);
  }

  /** What CMPS leaves, for every count and every flags it is entered with: the comparison of the
      blocks exactly when there is something to compare, or the flags say equal. */
  lemma CmpsExact(env: Env, cfg: Amx.Cfg, a: Amx.State, x: State, at: int, n: Word) returns (z: State)
    requires Consistent(env, cfg) && Core(env, cfg, a, x) && Comparable(cfg, a, n)
    requires CodeAt(env, at, BlockCode(Amx.Cmps(n))) && x.fl.Flags?
    ensures Reaches(env, Conf(x, at), Conf(z, at + 14)) && Frame(x, z)
    ensures z.regs.eax == Wrap(Amx.CompareBlocks(a.mem, a.alt, a.pri, n)) <==> n > 0 || (x.fl.zf && !x.fl.cf)
  {
    hide Core, Reaches, CodeAt, Frame;
    var r;
    r, z := CmpsRuns(env, cfg, a, x, at, n);
  }

  /** The failing case: entered with the carry flag set, CMPS 0 reports two empty blocks as
      different. */
  lemma CmpsOfNothingFails(env: Env, cfg: Amx.Cfg, a: Amx.State, x: State, at: int) returns (z: State)
    requires Consistent(env, cfg) && Core(env, cfg, a, x) && Amx.Room(cfg, a, 4)
    requires CodeAt(env, at, BlockCode(Amx.Cmps(0))) && x.fl == Flags(false, true, false, false)
    ensures Reaches(env, Conf(x, at), Conf(z, at + 14))
    ensures z.regs.eax == Cell(-1) && Amx.CompareBlocks(a.mem, a.alt, a.pri, 0) == 0
  {
    hide Core, Reaches, CodeAt, Frame;
    var r;
    r, z := CmpsRuns(env, cfg, a, x, at, 0);
  }

  lemma SimCmps(env: Env, cfg: Amx.Cfg, prog: seq<Amx.Instr>, k: int, a: Amx.State, x: State, n: Word, b: Amx.State)
    requires Compiled(env, prog) && Consistent(env, cfg) && 0 <= k < |prog| && Placed(env, prog, k)
    requires Core(env, cfg, a, x) && prog[k].op == Amx.Blk(Amx.Cmps(n))
    requires Amx.ApplyBlock(cfg, Amx.Cmps(n), a) == Some(b)
    ensures Matched(env, cfg, prog, Conf(x, env.labels[prog[k].address]), Amx.Next(b.(cip := prog[k].address + prog[k].size)))
  {
    hide Effects, Effect, Step, Run, Reaches;
    var at := env.labels[prog[k].address];
    assert Code(prog[k]) == BlockCode(Amx.Cmps(n));
    assert |BlockCode(Amx.Cmps(n))| == 14;
    var r, z := CmpsRuns(env, cfg, a, x, at, n);
    FallThrough(env, prog, k);
    Behind(env, cfg, prog, prog[k], b, Conf(x, at), z);
  }
}
