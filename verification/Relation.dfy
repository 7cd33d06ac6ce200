/** How an AMX state is represented in the x86 machine. */
module Relation {
  import opened Word32
  import opened X86
  import Amx
  import opened Emit

  function PtrAt(env: Env, k: int): Word {
    if 0 <= k < |env.addrs| then env.addrs[k] else 0
  }

  /** The byte that stands for an AMX memory byte: itself, or a byte of the native return
      address. */
  function Enc(env: Env, v: Amx.Val): Byte {
    match v
    case Byt(b) => b
    case RetByte(ret, k) => if 0 <= k < 4 && ret in env.resumes then ByteOf(PtrAt(env, env.resumes[ret]), k) else 0
  }

  /** A return address is one that the image knows. */
  predicate Known(env: Env, v: Amx.Val) {
    v.RetByte? ==> 0 <= v.k < 4 && v.ret in env.resumes && 0 <= env.resumes[v.ret] < |env.addrs|
  }

  ghost predicate Consistent(env: Env, cfg: Amx.Cfg) {
    && env.cod == cfg.cod && env.dat == cfg.dat && env.frame == cfg.frame && 0 <= cfg.size < HALF
    && Pointers(env, cfg)
  }

  ghost predicate Pointers(env: Env, cfg: Amx.Cfg) {
    forall a: int :: cfg.native(a) == Lookup(env.table, a)
  }

  ghost predicate MemRel(env: Env, cfg: Amx.Cfg, m: Amx.Memory, d: Data) {
    && (forall o :: 0 <= o < cfg.size ==> o in d)
    && (forall a :: a in m ==> 0 <= a < cfg.size && d[a] == Enc(env, m[a]) && Known(env, m[a]))
  }

  /** The correspondence of the two states, program counters aside. */
  ghost predicate Core(env: Env, cfg: Amx.Cfg, a: Amx.State, x: State) {
    && x.regs.eax == a.pri
    && x.regs.ecx == a.alt
    && x.regs.ebx == env.base
    && x.regs.ebp == Add(env.base, a.frm)
    && x.regs.esp == Add(env.base, a.stk)
    && x.rib.amx == env.amxPtr
    && x.amx.hea == a.hea
    && x.amx.stp == cfg.stp
    && MemRel(env, cfg, a.mem, x.data)
  }

  /** What compiled code leaves alone between helpers. */
  predicate Frame(x: State, y: State) {
    && y.native == x.native
    && y.rib == x.rib
    && y.amx == x.amx.(hea := y.amx.hea, stk := y.amx.stk)
  }

  ghost predicate Simulates(env: Env, cfg: Amx.Cfg, code: seq<Insn>, x: State, b: Amx.State) {
    var t := Effects(env, code, x);
    t.Some? && Core(env, cfg, b, t.value) && Frame(x, t.value)
  }

  // ---- sequences ---------------------------------------------------------

  lemma Seq1(env: Env, i: Insn, x: State)
    ensures Effects(env, [i], x) == Effect(env, i, x)
  {
    var t := Effect(env, i, x);
    if t.Some? {
      assert Effects(env, [i][1..], t.value) == t;
    }
  }

  lemma SeqCons(env: Env, i: Insn, rest: seq<Insn>, x: State)
    ensures Effects(env, [i] + rest, x) == var t := Effect(env, i, x); if t.None? then None else Effects(env, rest, t.value)
  {
    assert ([i] + rest)[1..] == rest;
  }

  lemma Seq2(env: Env, i: Insn, j: Insn, x: State)
    ensures Effects(env, [i, j], x) == var t := Effect(env, i, x); if t.None? then None else Effect(env, j, t.value)
  {
    assert [i, j] == [i] + [j];
    SeqCons(env, i, [j], x);
    var t := Effect(env, i, x);
    if t.Some? { Seq1(env, j, t.value); }
  }

  lemma Seq3(env: Env, i: Insn, j: Insn, k: Insn, x: State)
    ensures Effects(env, [i, j, k], x)
         == var t := Effect(env, i, x); if t.None? then None else
            var u := Effect(env, j, t.value); if u.None? then None else Effect(env, k, u.value)
  {
    assert [i, j, k] == [i] + [j, k];
    SeqCons(env, i, [j, k], x);
    var t := Effect(env, i, x);
    if t.Some? { Seq2(env, j, k, t.value); }
  }

  lemma {:induction false} SeqAppend(env: Env, c: seq<Insn>, d: seq<Insn>, x: State)
    ensures Effects(env, c + d, x) == var t := Effects(env, c, x); if t.None? then None else Effects(env, d, t.value)
    decreases |c|
  {
    if |c| == 0 {
      assert c + d == d;
    } else {
      assert (c + d)[1..] == c[1..] + d;
      var t := Effect(env, c[0], x);
      if t.Some? { SeqAppend(env, c[1..], d, t.value); }
    }
  }

  lemma SeqJoin(env: Env, c: seq<Insn>, d: seq<Insn>, x: State, y: State, z: State)
    requires Effects(env, c, x) == Some(y) && Effects(env, d, y) == Some(z)
    ensures Effects(env, c + d, x) == Some(z)
  {
    SeqAppend(env, c, d, x);
  }

  // ---- memory ------------------------------------------------------------

  lemma LoadRel(env: Env, cfg: Amx.Cfg, a: Amx.State, x: State, at: Word)
    requires Consistent(env, cfg) && Core(env, cfg, a, x)
    requires Amx.LoadCell(a.mem, at).Some?
    ensures LoadAt(env, x, Add(env.base, at)) == Amx.LoadCell(a.mem, at)
  {
    assert Sub(Add(env.base, at), env.base) == at;
    assert a.mem[at].Byt?;
  }

  lemma StoreRel(env: Env, cfg: Amx.Cfg, m: Amx.Memory, x: State, at: Word, v: Word)
    requires Consistent(env, cfg) && MemRel(env, cfg, m, x.data)
    requires Amx.StoreCell(cfg, m, at, v).Some?
    ensures var t := StoreAt(env, x, Add(env.base, at), v);
            t == Some(x.(data := Store4(x.data, at, v)))
            && MemRel(env, cfg, Amx.StoreCell(cfg, m, at, v).value, t.value.data)
  {
    assert Sub(Add(env.base, at), env.base) == at;
  }

  // ---- updates that keep the correspondence --------------------------------

  lemma CoreAcc(env: Env, cfg: Amx.Cfg, r: Amx.Acc, v: Word, a: Amx.State, x: State)
    requires Core(env, cfg, a, x)
    ensures Core(env, cfg, Amx.SetAcc(a, r, v), SetReg(x, RegOf(r), v)) && Frame(x, SetReg(x, RegOf(r), v))
  {
  }

  /** The same state with other scratch registers and flags. */
  function Scratch(x: State, edx: Word, esi: Word, edi: Word, fl: Flags): State {
    x.(regs := x.regs.(edx := edx, esi := esi, edi := edi), fl := fl)
  }

  lemma CoreScratch(env: Env, cfg: Amx.Cfg, a: Amx.State, x: State, edx: Word, esi: Word, edi: Word, fl: Flags)
    requires Core(env, cfg, a, x)
    ensures var y := Scratch(x, edx, esi, edi, fl); Core(env, cfg, a, y) && Frame(x, y)
  {
  }

  lemma CoreData(env: Env, cfg: Amx.Cfg, a: Amx.State, x: State, m: Amx.Memory, d: Data)
    requires Core(env, cfg, a, x) && MemRel(env, cfg, m, d)
    ensures Core(env, cfg, a.(mem := m), x.(data := d)) && Frame(x, x.(data := d))
  {
  }
}
