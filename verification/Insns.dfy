/** What single instructions do outside the AMX data block: to registers, the runtime block,
    the AMX structure and the native stack. */
module Insns {
  import opened Word32
  import opened X86
  import opened Relation

  /** No address of the native stack lies in the data block. */
  ghost predicate Apart(env: Env, x: State) {
    forall a :: a in x.native ==> !Has4(x.data, Sub(a, env.base))
  }

  /** Native stack words at e - n, e - n + 4, ... up to e + m. */
  ghost predicate Words(x: State, e: int, n: int, m: int) {
    && n <= e && e + m < M - 4
    && forall a :: e - n <= a <= e + m && (a - e) % 4 == 0 ==> a in x.native
  }

  lemma ApartSame(env: Env, x: State, y: State)
    requires Apart(env, x) && y.data == x.data && y.native.Keys == x.native.Keys
    ensures Apart(env, y)
  {
  }

  lemma Pushes(env: Env, x: State, src: Opd, v: Word)
    requires Apart(env, x) && x.regs.esp >= 4 && x.regs.esp - 4 in x.native && Read(env, x, src) == Some(v)
    ensures Effect(env, Push(src), x)
         == Some(x.(regs := x.regs.(esp := x.regs.esp - 4), native := x.native[x.regs.esp - 4 := v]))
  {
    hide Load4, Store4, Has4;
  }

  lemma PopsReg(env: Env, x: State, r: Reg)
    requires Apart(env, x) && x.regs.esp < M - 4 && x.regs.esp in x.native
    ensures Effect(env, Pop(R(r)), x) == Some(SetReg(SetReg(x, ESP, x.regs.esp + 4), r, x.native[x.regs.esp]))
  {
    hide Load4, Store4, Has4;
  }

  lemma PopsRib(env: Env, x: State, f: RibField)
    requires Apart(env, x) && x.regs.esp < M - 4 && x.regs.esp in x.native
    ensures Effect(env, Pop(Mm(Rib(f))), x)
         == Some(SetReg(x, ESP, x.regs.esp + 4).(rib := SetRib(x.rib, f, x.native[x.regs.esp])))
  {
    hide Load4, Store4, Has4;
  }

  lemma ReadsNative(env: Env, x: State, b: Reg, d: Word, a: Word)
    requires Apart(env, x) && a in x.native && Add(Get(x.regs, b), d) == a
    ensures Read(env, x, Mm(At(b, d))) == Some(x.native[a])
  {
    hide Load4, Store4, Has4;
  }

  lemma WritesNative(env: Env, x: State, b: Reg, d: Word, a: Word, r: Reg)
    requires Apart(env, x) && a in x.native && Add(Get(x.regs, b), d) == a
    ensures Effect(env, Mov(Mm(At(b, d)), R(r)), x) == Some(x.(native := x.native[a := Get(x.regs, r)]))
  {
    hide Load4, Store4, Has4;
  }

  lemma Moves(env: Env, x: State, d: Reg, src: Opd, v: Word)
    requires Read(env, x, src) == Some(v)
    ensures Effect(env, Mov(R(d), src), x) == Some(SetReg(x, d, v))
  {
  }

  lemma MovesRib(env: Env, x: State, d: Reg, f: RibField)
    ensures Effect(env, Mov(R(d), Mm(Rib(f))), x) == Some(SetReg(x, d, GetRib(x.rib, f)))
  {
  }

  lemma StoresRib(env: Env, x: State, f: RibField, r: Reg)
    ensures Effect(env, Mov(Mm(Rib(f)), R(r)), x) == Some(x.(rib := SetRib(x.rib, f, Get(x.regs, r))))
  {
  }

  lemma MovesAmx(env: Env, x: State, d: Reg, r: Reg, f: AmxField)
    requires Get(x.regs, r) == env.amxPtr
    ensures Effect(env, Mov(R(d), Mm(Amx(r, f))), x) == Some(SetReg(x, d, GetAmx(x.amx, f)))
  {
  }

  lemma StoresAmx(env: Env, x: State, r: Reg, f: AmxField, src: Opd, v: Word)
    requires Get(x.regs, r) == env.amxPtr && (src == I(v) || (src.R? && v == Get(x.regs, src.reg)))
    ensures Effect(env, Mov(Mm(Amx(r, f)), src), x) == Some(x.(amx := SetAmx(x.amx, f, v)))
  {
  }

  lemma MovesReg(env: Env, x: State, d: Reg, s: Reg)
    ensures Effect(env, Mov(R(d), R(s)), x) == Some(SetReg(x, d, Get(x.regs, s)))
  {
  }

  lemma Computes(env: Env, x: State, op: AluOp, d: Reg, src: Opd, v: Word)
    requires Read(env, x, src) == Some(v)
    ensures Effect(env, Alu(op, R(d), src), x) == Some(SetReg(Undef(x), d, AluResult(op, Get(x.regs, d), v)))
  {
  }

  // ---- sequences ---------------------------------------------------------------------

  lemma Two(env: Env, i: Insn, j: Insn, x: State, t: State, y: State)
    requires Effect(env, i, x) == Some(t) && Effect(env, j, t) == Some(y)
    ensures Effects(env, [i, j], x) == Some(y)
  {
    hide Effect;
    Seq2(env, i, j, x);
  }

  lemma Three(env: Env, i: Insn, j: Insn, k: Insn, x: State, t: State, u: State, y: State)
    requires Effect(env, i, x) == Some(t) && Effect(env, j, t) == Some(u) && Effect(env, k, u) == Some(y)
    ensures Effects(env, [i, j, k], x) == Some(y)
  {
    hide Effect;
    Seq3(env, i, j, k, x);
  }

  lemma Four(env: Env, i: Insn, j: Insn, k: Insn, l: Insn, x: State, t: State, u: State, w: State, y: State)
    requires Effect(env, i, x) == Some(t) && Effect(env, j, t) == Some(u)
    requires Effect(env, k, u) == Some(w) && Effect(env, l, w) == Some(y)
    ensures Effects(env, [i, j, k, l], x) == Some(y)
  {
    hide Effect, Effects;
    Two(env, i, j, x, t, u);
    Two(env, k, l, u, w, y);
    SeqJoin(env, [i, j], [k, l], x, u, y);
    assert [i, j, k, l] == [i, j] + [k, l];
  }
}
