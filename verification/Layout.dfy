/** The assembled image of a program: where the code of every instruction starts, what lies
    between, and the labels, helpers and instruction table that refer to it. */
module Layout {
  import opened Word32
  import opened X86
  import Amx
  import opened Emit
  import opened Relation

  ghost predicate CodeAt(env: Env, k: int, c: seq<Insn>) {
    0 <= k && k + |c| <= |env.code| && env.code[k..k + |c|] == c
  }

  /** Alignment in front of a procedure leaves nothing but no-operations. */
  ghost predicate Padding(env: Env, i: int, j: int) {
    0 <= i <= j <= |env.code| && forall m :: i <= m < j ==> env.code[m] == Nop
  }

  /** Instructions follow one another without gaps. */
  ghost predicate Ordered(prog: seq<Amx.Instr>) {
    && (forall k :: 0 <= k < |prog| ==> prog[k].size > 0 && prog[k].address >= 0)
    && (forall i, j :: 0 <= i < j < |prog| ==> prog[i].address + prog[i].size <= prog[j].address)
    && (forall k :: 0 <= k < |prog| - 1 ==> prog[k + 1].address == prog[k].address + prog[k].size)
  }

  /** The code addresses an instruction names. */
  function Targets(op: Amx.Op): set<int> {
    if !op.Ctl? then {}
    else
      match op.ctl
      case Call(d) => {d}
      case Jump(d) => {d}
      case JZer(d) => {d}
      case JNz(d) => {d}
      case JRel(_, d) => {d}
      case Switch(cases, d) => {d} + set c | c in cases :: c.address
      case _ => {}
  }

  /** The code of instruction k lies between its label and its end. */
  ghost predicate Placed(env: Env, prog: seq<Amx.Instr>, k: int)
    requires 0 <= k < |prog|
  {
    var i := prog[k];
    && i.address in env.labels && i.address in env.ends
    && CodeAt(env, env.labels[i.address], Code(i))
    && env.ends[i.address] == env.labels[i.address] + |Code(i)|
  }

  /** Nothing but padding separates an instruction from the next. */
  ghost predicate Chained(env: Env, prog: seq<Amx.Instr>, k: int)
    requires 0 <= k < |prog| - 1
  {
    && prog[k].address in env.ends && prog[k + 1].address in env.labels
    && Padding(env, env.ends[prog[k].address], env.labels[prog[k + 1].address])
  }

  ghost predicate HelpersPlaced(env: Env) {
    && JumpHelper in env.helpers && CodeAt(env, env.helpers[JumpHelper], JUMP_HELPER)
    && JumpLookup in env.helpers && CodeAt(env, env.helpers[JumpLookup], JUMP_LOOKUP)
    && HaltHelper in env.helpers && CodeAt(env, env.helpers[HaltHelper], HALT_HELPER)
    && ExecReturn in env.helpers && 0 <= env.helpers[ExecReturn] < |env.addrs|
    && ExecExit in env.helpers
  }

  ghost predicate Addressed(env: Env) {
    && |env.addrs| == |env.code| + 1
    && env.addrs[0] > 0
    && forall i, j :: 0 <= i < j < |env.addrs| ==> env.addrs[i] < env.addrs[j]
  }

  /** The table maps exactly the instruction boundaries to their native addresses. */
  ghost predicate Tabled(env: Env, prog: seq<Amx.Instr>) {
    forall a: int :: Lookup(env.table, a) ==
      if Amx.Find(prog, a) >= 0 && a in env.labels then PtrAt(env, env.labels[a]) else 0
  }

  /** Everything the simulation needs to know about an assembled program. */
  ghost predicate Compiled(env: Env, prog: seq<Amx.Instr>) {
    && Addressed(env)
    && Ordered(prog)
    && HelpersPlaced(env)
    && Tabled(env, prog)
    && (forall k :: 0 <= k < |prog| ==> Placed(env, prog, k))
    && (forall k :: 0 <= k < |prog| - 1 ==> Chained(env, prog, k))
    && (forall k, d :: 0 <= k < |prog| && d in Targets(prog[k].op) ==> Amx.Find(prog, d) >= 0)
    && (forall k :: 0 <= k < |prog| && prog[k].op.Ctl? && prog[k].op.ctl.Call? ==> ReturnKnown(env, prog[k]))
    && ReturnsResume(env, prog)
  }

  /** The return address of a call resumes behind the code of the call. */
  ghost predicate ReturnKnown(env: Env, i: Amx.Instr) {
    && i.address in env.ends && i.address + i.size in env.resumes
    && env.resumes[i.address + i.size] == env.ends[i.address]
  }

  ghost predicate ReturnsResume(env: Env, prog: seq<Amx.Instr>) {
    && (forall r :: r in env.resumes ==> 0 <= env.resumes[r] < |env.addrs|)
    && (forall r :: r in env.resumes && r != 0 ==> PcAt(env, prog, env.resumes[r], r))
    && 0 in env.resumes && ExecReturn in env.helpers && env.resumes[0] == env.helpers[ExecReturn]
  }

  /** The program counter is at the instruction at cip, or at padding in front of it. */
  ghost predicate PcAt(env: Env, prog: seq<Amx.Instr>, pc: int, cip: int) {
    Amx.Find(prog, cip) >= 0 ==> cip in env.labels && Padding(env, pc, env.labels[cip])
  }

  ghost predicate Rel(env: Env, cfg: Amx.Cfg, prog: seq<Amx.Instr>, a: Amx.State, c: Conf) {
    Core(env, cfg, a, c.s) && PcAt(env, prog, c.pc, a.cip)
  }

  // ---- finding instructions --------------------------------------------------

  lemma {:induction false} FindIs(prog: seq<Amx.Instr>, k: int)
    requires Ordered(prog) && 0 <= k < |prog|
    ensures Amx.Find(prog, prog[k].address) == k
  {
    if k < |prog| - 1 {
      var p := prog[..|prog| - 1];
      assert Ordered(p) by {
        forall i | 0 <= i < |p| - 1
          ensures p[i + 1].address == p[i].address + p[i].size
        {
          assert prog[i + 1].address == prog[i].address + prog[i].size;
        }
      }
      assert prog[k].address + prog[k].size <= prog[|prog| - 1].address;
      FindIs(p, k);
    }
  }

  lemma {:induction false} FindNone(prog: seq<Amx.Instr>, a: int)
    requires forall k :: 0 <= k < |prog| ==> prog[k].address != a
    ensures Amx.Find(prog, a) == -1
  {
    if |prog| > 0 {
      FindNone(prog[..|prog| - 1], a);
    }
  }

  /** The address behind an instruction is that of the next one, or of none. */
  lemma FindNext(prog: seq<Amx.Instr>, k: int)
    requires Ordered(prog) && 0 <= k < |prog|
    ensures Amx.Find(prog, prog[k].address + prog[k].size) == if k + 1 < |prog| then k + 1 else -1
  {
    if k + 1 < |prog| {
      assert prog[k + 1].address == prog[k].address + prog[k].size;
      FindIs(prog, k + 1);
    } else {
      FindNone(prog, prog[k].address + prog[k].size);
    }
  }

  /** Falling through reaches the next instruction. */
  lemma FallThrough(env: Env, prog: seq<Amx.Instr>, k: int)
    requires Compiled(env, prog) && 0 <= k < |prog|
    requires prog[k].address in env.ends
    ensures PcAt(env, prog, env.ends[prog[k].address], prog[k].address + prog[k].size)
  {
    FindNext(prog, k);
    if k + 1 < |prog| {
      assert Chained(env, prog, k);
      assert prog[k + 1].address == prog[k].address + prog[k].size;
    }
  }

  lemma AtTarget(env: Env, prog: seq<Amx.Instr>, k: int, d: int)
    requires Compiled(env, prog) && 0 <= k < |prog| && d in Targets(prog[k].op)
    ensures d in env.labels && PcAt(env, prog, env.labels[d], d)
  {
    var j := Amx.Find(prog, d);
    assert Placed(env, prog, j);
  }

  // ---- native addresses ------------------------------------------------------

  lemma {:induction false} IndexOfIs(addrs: seq<Word>, k: int)
    requires forall i, j :: 0 <= i < j < |addrs| ==> addrs[i] < addrs[j]
    requires 0 <= k < |addrs|
    ensures IndexOf(addrs, addrs[k]) == Some(k)
  {
    if k < |addrs| - 1 {
      assert addrs[..|addrs| - 1][k] == addrs[k];
      IndexOfIs(addrs[..|addrs| - 1], k);
    }
  }

  // ---- runs --------------------------------------------------------------------

  ghost predicate Reaches(env: Env, x: Conf, y: Conf) {
    exists n: nat :: Run(env, n, x) == Some(y)
  }

  lemma {:induction false} RunAdd(env: Env, n: nat, m: nat, x: Conf)
    ensures Run(env, n + m, x) == var t := Run(env, n, x); if t.None? then None else Run(env, m, t.value)
  {
    if n > 0 {
      var t := Step(env, x);
      if t.Some? { RunAdd(env, n - 1, m, t.value); }
    }
  }

  lemma ReachesSelf(env: Env, x: Conf)
    ensures Reaches(env, x, x)
  {
    assert Run(env, 0, x) == Some(x);
  }

  lemma ReachesStep(env: Env, x: Conf, y: Conf)
    requires Step(env, x) == Some(y)
    ensures Reaches(env, x, y)
  {
    assert Run(env, 0, y) == Some(y);
    assert Run(env, 1, x) == Some(y);
  }

  lemma ReachesTrans(env: Env, x: Conf, y: Conf, z: Conf)
    requires Reaches(env, x, y) && Reaches(env, y, z)
    ensures Reaches(env, x, z)
  {
    var n: nat :| Run(env, n, x) == Some(y);
    var m: nat :| Run(env, m, y) == Some(z);
    RunAdd(env, n, m, x);
  }

  /** Padding is run through without effect. */
  lemma {:induction false} RunPadding(env: Env, x: Conf, j: int)
    requires Padding(env, x.pc, j)
    ensures Reaches(env, x, x.(pc := j))
    decreases j - x.pc
  {
    if x.pc == j {
      ReachesSelf(env, x);
    } else {
      var y := x.(pc := x.pc + 1);
      ReachesStep(env, x, y);
      RunPadding(env, y, j);
      ReachesTrans(env, x, y, x.(pc := j));
    }
  }

  // ---- straight-line code ------------------------------------------------------

  /** A straight-line sequence runs from its first instruction to behind its last. */
  lemma {:induction false} Straight(env: Env, c: seq<Insn>, x: State, k: int, y: State)
    requires CodeAt(env, k, c) && Effects(env, c, x) == Some(y)
    ensures Reaches(env, Conf(x, k), Conf(y, k + |c|))
    decreases |c|
  {
    if |c| == 0 {
      ReachesSelf(env, Conf(x, k));
    } else {
      var t := Effect(env, c[0], x).value;
      assert env.code[k] == env.code[k..k + |c|][0];
      PlainStep(env, c[0], x, k, t);
      assert env.code[k + 1..k + 1 + |c[1..]|] == c[1..];
      Straight(env, c[1..], t, k + 1, y);
      ReachesTrans(env, Conf(x, k), Conf(t, k + 1), Conf(y, k + |c|));
    }
  }

  lemma PlainStep(env: Env, i: Insn, x: State, k: int, t: State)
    requires 0 <= k < |env.code| && env.code[k] == i && Effect(env, i, x) == Some(t)
    ensures Reaches(env, Conf(x, k), Conf(t, k + 1))
  {
    assert Step(env, Conf(x, k)) == Some(Conf(t, k + 1));
    ReachesStep(env, Conf(x, k), Conf(t, k + 1));
  }

  /** The part of a placed sequence from its n-th instruction on. */
  lemma CodeFrom(env: Env, k: int, c: seq<Insn>, n: nat)
    requires CodeAt(env, k, c) && n <= |c|
    ensures CodeAt(env, k, c[..n]) && CodeAt(env, k + n, c[n..])
    ensures n < |c| ==> 0 <= k + n < |env.code| && env.code[k + n] == c[n]
  {
    assert env.code[k + n..k + n + |c[n..]|] == c[n..];
    forall j | 0 <= j < n
      ensures env.code[k..k + n][j] == c[..n][j]
    {
      assert env.code[k + j] == env.code[k..k + |c|][j];
    }
    if n < |c| {
      assert env.code[k + n] == env.code[k..k + |c|][n];
    }
  }

  lemma CodeItem(env: Env, at: int, c: seq<Insn>, n: nat)
    requires CodeAt(env, at, c) && n < |c|
    ensures 0 <= at + n < |env.code| && env.code[at + n] == c[n]
  {
    CodeFrom(env, at, c, n);
  }

  lemma CodeParts(env: Env, at: int, c: seq<Insn>, d: seq<Insn>)
    requires CodeAt(env, at, c + d)
    ensures CodeAt(env, at, c) && CodeAt(env, at + |c|, d)
  {
    CodeFrom(env, at, c + d, |c|);
    assert (c + d)[..|c|] == c && (c + d)[|c|..] == d;
  }
}
