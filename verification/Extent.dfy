/** No instruction changes which addresses of the data block exist. */
module Extent {
  import opened Word32
  import opened X86
  import opened Layout

  ghost predicate SameExtent(x: State, y: State) { y.data.Keys == x.data.Keys }

  lemma StoreExtent(env: Env, s: State, a: Word, v: Word)
    ensures var t := StoreAt(env, s, a, v); t.Some? ==> SameExtent(s, t.value)
  {
  }

  lemma StoreMemExtent(env: Env, s: State, m: Mem, v: Word)
    ensures var t := StoreMem(env, s, m, v); t.Some? ==> SameExtent(s, t.value)
  {
    hide StoreAt;
    if m.At? || m.Index? { StoreExtent(env, s, Address(s, m), v); }
  }

  lemma WriteExtent(env: Env, s: State, o: Opd, v: Word)
    ensures var t := Write(env, s, o, v); t.Some? ==> SameExtent(s, t.value)
  {
    hide StoreMem;
    if o.Mm? { StoreMemExtent(env, s, o.mem, v); }
  }

  lemma {:induction false} MovsExtent(m: Data, si: int, di: int, n: nat, w: nat)
    ensures var t := Movs(m, si, di, n, w); t.Some? ==> t.value.Keys == m.Keys
    decreases n
  {
    if n > 0 && HasN(m, si, w) && HasN(m, di, w) {
      assert CopyUnit(m, si, di, w).Keys == m.Keys;
      MovsExtent(CopyUnit(m, si, di, w), si + w, di + w, n - 1, w);
    }
  }

  lemma {:induction false} StosdExtent(m: Data, di: int, v: Word, n: nat)
    ensures var t := Stosd(m, di, v, n); t.Some? ==> t.value.Keys == m.Keys
    decreases n
  {
    if n > 0 && Has4(m, di) {
      assert Store4(m, di, v).Keys == m.Keys;
      StosdExtent(Store4(m, di, v), di + 4, v, n - 1);
    }
  }

  lemma MovLowExtent(env: Env, m: Mem, r: Reg, w: nat, s: State)
    ensures var t := DoMovLow(env, m, r, w, s); t.Some? ==> SameExtent(s, t.value)
  {
  }

  lemma CalledExtent(env: Env, s: State, v: Word)
    ensures SameExtent(s, Called(env, s, v))
  {
    assert Scribble(env, env.junk(s), s.data, Sub(s.regs.esp, env.base) + 8).Keys == s.data.Keys;
  }

  lemma PushExtent(env: Env, src: Opd, s: State)
    ensures var t := DoPush(env, src, s); t.Some? ==> SameExtent(s, t.value)
  {
    hide StoreAt;
    var v := Read(env, s, src);
    if v.Some? {
      var sp := Sub(s.regs.esp, 4);
      StoreExtent(env, s.(regs := s.regs.(esp := sp)), sp, v.value);
    }
  }

  lemma WritesExtent(env: Env, i: Insn, s: State)
    requires Writes(i)
    ensures var t := Effect(env, i, s); t.Some? ==> SameExtent(s, t.value)
  {
    hide Write, Read;
    forall u: State, o: Opd, v: Word
      ensures var t := Write(env, u, o, v); t.Some? ==> SameExtent(u, t.value)
    {
      WriteExtent(env, u, o, v);
    }
  }

  lemma CallExtent(env: Env, i: Insn, s: State)
    requires i.CallGetJITInstrPtr? || i.CallGetPublicAddress?
    ensures var t := Effect(env, i, s); t.Some? ==> SameExtent(s, t.value)
  {
    hide Called, LoadAt, Lookup;
    forall v: Word ensures SameExtent(s, Called(env, s, v)) { CalledExtent(env, s, v); }
  }

  /** The instructions that store with an address of their own. */
  predicate Stores(i: Insn) { i.MovLow? || i.Push? || i.RepMovs? || i.RepStosd? }

  lemma StoresExtent(env: Env, i: Insn, s: State)
    requires Stores(i)
    ensures var t := Effect(env, i, s); t.Some? ==> SameExtent(s, t.value)
  {
    hide DoPush, DoMovLow, Movs, Stosd;
    if i.MovLow? {
      MovLowExtent(env, i.lmem, i.lsrc, i.lwidth, s);
    } else if i.Push? {
      PushExtent(env, i.src, s);
    } else if i.RepMovs? {
      MovsExtent(s.data, Sub(s.regs.esi, env.base), Sub(s.regs.edi, env.base), s.regs.ecx, i.width);
    } else {
      StosdExtent(s.data, Sub(s.regs.edi, env.base), s.regs.eax, s.regs.ecx);
    }
  }

  predicate Writes(i: Insn) { i.Mov? || i.Alu? || i.Inc? || i.Dec? || i.Pop? || i.Xchg? }

  lemma RegistersOnly(env: Env, i: Insn, s: State)
    requires !Writes(i) && !Stores(i) && !i.CallGetJITInstrPtr? && !i.CallGetPublicAddress?
    ensures var t := Effect(env, i, s); t.Some? ==> t.value.data == s.data
  {
    hide Read, LoadMem, Cmpsb, Get, Set;
  }

  lemma EffectExtent(env: Env, i: Insn, s: State)
    ensures var t := Effect(env, i, s); t.Some? ==> SameExtent(s, t.value)
  {
    hide Effect;
    if Writes(i) {
      WritesExtent(env, i, s);
    } else if Stores(i) {
      StoresExtent(env, i, s);
    } else if i.CallGetJITInstrPtr? || i.CallGetPublicAddress? {
      CallExtent(env, i, s);
    } else {
      RegistersOnly(env, i, s);
    }
  }

  lemma StepExtent(env: Env, c: Conf)
    ensures var d := Step(env, c); d.Some? ==> SameExtent(c.s, d.value.s)
  {
    hide Effect, StoreAt, IndexOf, LoadAt;
    if 0 <= c.pc < |env.code| {
      EffectExtent(env, env.code[c.pc], c.s);
      if 0 <= c.pc + 1 < |env.addrs| {
        var sp := Sub(c.s.regs.esp, 4);
        StoreExtent(env, c.s.(regs := c.s.regs.(esp := sp)), sp, env.addrs[c.pc + 1]);
      }
    }
  }

  lemma {:induction false} RunExtent(env: Env, n: nat, c: Conf)
    ensures var d := Run(env, n, c); d.Some? ==> SameExtent(c.s, d.value.s)
  {
    hide Step;
    if n > 0 {
      StepExtent(env, c);
      var t := Step(env, c);
      if t.Some? { RunExtent(env, n - 1, t.value); }
    }
  }

  lemma ReachesExtent(env: Env, c: Conf, d: Conf)
    requires Reaches(env, c, d)
    ensures SameExtent(c.s, d.s)
  {
    var n: nat :| Run(env, n, c) == Some(d);
    RunExtent(env, n, c);
  }
}
